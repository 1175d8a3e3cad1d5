/** The fragment of JavaScript's regular expressions that the query compilers
    produce: literals, escaped punctuation, `[a-z]*`, counted repetition, `^`, `$`
    and alternatives. Section 22.2 of ECMA-262 and, for braces that count nothing,
    section B.1.4 give them the meaning they have here. */
module MiniRegex {
  import opened Prelude
  import opened EscapeCodec

  /** `Repeat` is a character with a count in braces; no upper count means no bound. */
  datatype Atom = Char(c: CodeUnit) | Lowers | Start | End | Repeat(c: CodeUnit, lo: int, hi: Option<int>)

  /** The alternatives, each a list of atoms. */
  type Pattern = seq<seq<Atom>>

  const BAR: CodeUnit := 124
  const DOLLAR: CodeUnit := 36
  const BRACKET: CodeUnit := 91
  const OPEN_BRACE: CodeUnit := 123
  const CLOSE_BRACE: CodeUnit := 125

  /** The text `[a-z]*`. */
  const LOWERS: Text := [91, 97, 45, 122, 93, 42]

  /** The syntax characters but the braces: `^ $ \ . * + ? ( ) [ ] |`. */
  predicate IsSyntax(c: CodeUnit) {
    c in {94, 36, 92, 46, 42, 43, 63, 40, 41, 91, 93, 124}
  }

  /** ASCII punctuation, which an escape stands for literally. */
  predicate IsPunctuation(c: CodeUnit) {
    33 <= c <= 47 || 58 <= c <= 64 || 91 <= c <= 94 || c == 96 || 123 <= c <= 126
  }

  predicate IsLower(c: CodeUnit) { 97 <= c <= 122 }

  predicate IsUpper(c: CodeUnit) { 65 <= c <= 90 }

  // ---- reading a pattern ----

  /** A count in braces: how long it is, the least and the greatest number. */
  datatype Braces = Braces(length: nat, lo: int, hi: Option<int>)

  /** The count at the front: `{n}`, `{n,}` or `{n,m}`. */
  function Quantifier(t: Text): (r: Option<Braces>)
    ensures r.Some? ==> t != [] && t[0] == OPEN_BRACE && 3 <= r.value.length <= |t|
  {
    if t == [] || t[0] != OPEN_BRACE then None
    else
      var k := DigitRun(t[1..], 10);
      var lo, u := DigitsValue(t[1..][..k], 10), t[1..][k..];
      if k == 0 || u == [] then None
      else if u[0] == CLOSE_BRACE then Some(Braces(k + 2, lo, Some(lo)))
      else if u[0] != 44 then None
      else
        var m := DigitRun(u[1..], 10);
        var v := u[1..][m..];
        if v == [] || v[0] != CLOSE_BRACE then None
        else Some(Braces(k + m + 3, lo, if m == 0 then None else Some(DigitsValue(u[1..][..m], 10))))
  }

  /** A character with the count behind it, if there is one, and how long that is;
      `None` for a count from more to less, which is an error. */
  function Counted(c: CodeUnit, behind: Text): (r: Option<(Atom, nat)>)
    ensures r.Some? ==> r.value.1 <= |behind|
  {
    var b := Quantifier(behind);
    if b.None? then Some((Char(c), 0))
    else if b.value.hi.Some? && b.value.hi.value < b.value.lo then None
    else Some((Repeat(c, b.value.lo, b.value.hi), b.value.length))
  }

  function CountedToken(c: CodeUnit, n: nat, p: Text): (r: Option<(Atom, nat)>)
    requires 0 < n <= |p|
    ensures r.Some? ==> 0 < r.value.1 <= |p|
  {
    var a := Counted(c, p[n..]);
    if a.None? then None else Some((a.value.0, n + a.value.1))
  }

  /** The atom at the front and its length; `None` outside the fragment, and for a count
      with nothing in front of it, which is an error. */
  function Token(p: Text): (r: Option<(Atom, nat)>)
    requires p != [] && p[0] != BAR
    ensures r.Some? ==> 0 < r.value.1 <= |p|
  {
    if p[0] == BACKSLASH then
      if |p| >= 2 && IsPunctuation(p[1]) then CountedToken(p[1], 2, p) else None
    else if p[0] == BRACKET then
      if |p| >= 6 && p[..6] == LOWERS then Some((Lowers, 6)) else None
    else if p[0] == CARET then Some((Start, 1))
    else if p[0] == DOLLAR then Some((End, 1))
    else if IsSyntax(p[0]) || Quantifier(p).Some? then None
    else CountedToken(p[0], 1, p)
  }

  /** Atoms in front of a pattern join its first alternative. */
  function WithFront(atoms: seq<Atom>, p: Option<Pattern>): Option<Pattern>
    requires p.Some? ==> p.value != []
  {
    if p.None? then None else Some([atoms + p.value[0]] + p.value[1..])
  }

  function Parse(p: Text): (r: Option<Pattern>)
    ensures r.Some? ==> r.value != []
  {
    if p == [] then Some([[]])
    else if p[0] == BAR then
      var rest := Parse(p[1..]);
      if rest.None? then None else Some([[]] + rest.value)
    else
      var token := Token(p);
      if token.None? then None else WithFront([token.value.0], Parse(p[token.value.1..]))
  }

  // ---- matching ----

  /** The letter class, up to `canon`, the identity for a case-sensitive pattern. */
  ghost predicate InLowers(canon: CodeUnit -> CodeUnit, c: CodeUnit) {
    exists l: CodeUnit :: IsLower(l) && canon(l) == canon(c)
  }

  /** A repetition after one turn. */
  function OneLess(a: Atom): Atom
    requires a.Repeat?
  {
    Repeat(a.c, a.lo - 1, if a.hi.None? then None else Some(a.hi.value - 1))
  }

  /** The atoms match some part of the text that begins at `i`. */
  ghost predicate MatchesFrom(canon: CodeUnit -> CodeUnit, atoms: seq<Atom>, t: Text, i: nat)
    requires i <= |t|
    decreases |atoms|, |t| - i
  {
    if atoms == [] then true
    else
      match atoms[0]
      case Char(c) => i < |t| && canon(t[i]) == canon(c) && MatchesFrom(canon, atoms[1..], t, i + 1)
      case Lowers =>
        MatchesFrom(canon, atoms[1..], t, i)
        || (i < |t| && InLowers(canon, t[i]) && MatchesFrom(canon, atoms, t, i + 1))
      case Start => i == 0 && MatchesFrom(canon, atoms[1..], t, i)
      case End => i == |t| && MatchesFrom(canon, atoms[1..], t, i)
      case Repeat(c, lo, hi) =>
        (lo <= 0 && MatchesFrom(canon, atoms[1..], t, i))
        || (hi != Some(0) && i < |t| && canon(t[i]) == canon(c)
            && MatchesFrom(canon, [OneLess(atoms[0])] + atoms[1..], t, i + 1))
  }

  /** `RegExp.prototype.test`: some alternative matches from some position. */
  ghost predicate Test(canon: CodeUnit -> CodeUnit, p: Pattern, t: Text) {
    exists a, i :: 0 <= a < |p| && 0 <= i <= |t| && MatchesFrom(canon, p[a], t, i)
  }

  // ---- literals ----

  function Chars(q: Text): (atoms: seq<Atom>)
    ensures |atoms| == |q|
  {
    seq(|q|, i requires 0 <= i < |q| => Char(q[i]))
  }

  /** The text has `q` at `i`, up to `canon`. */
  ghost predicate At(canon: CodeUnit -> CodeUnit, q: Text, t: Text, i: nat) {
    i + |q| <= |t| && forall j :: 0 <= j < |q| ==> canon(t[i + j]) == canon(q[j])
  }

  /** `q` is a substring, up to `canon`. */
  ghost predicate Within(canon: CodeUnit -> CodeUnit, q: Text, t: Text) {
    exists i: nat :: At(canon, q, t, i)
  }

  lemma {:induction false} CharsMatch(canon: CodeUnit -> CodeUnit, q: Text, t: Text, i: nat)
    requires i <= |t|
    ensures MatchesFrom(canon, Chars(q), t, i) <==> At(canon, q, t, i)
    decreases |q|
  {
    if q != [] {
      assert Chars(q)[1..] == Chars(q[1..]);
      if i < |t| {
        CharsMatch(canon, q[1..], t, i + 1);
        if At(canon, q, t, i) {
          assert canon(t[i + 0]) == canon(q[0]);
          forall j | 0 <= j < |q| - 1 ensures canon(t[i + 1 + j]) == canon(q[1..][j]) {
            assert canon(t[i + (j + 1)]) == canon(q[j + 1]);
          }
        }
        if canon(t[i]) == canon(q[0]) && At(canon, q[1..], t, i + 1) {
          forall j | 0 <= j < |q| ensures canon(t[i + j]) == canon(q[j]) {
            if j > 0 { assert canon(t[i + 1 + (j - 1)]) == canon(q[1..][j - 1]); }
          }
        }
      }
    }
  }

  /** A literal pattern tests for a substring. */
  lemma LiteralTests(canon: CodeUnit -> CodeUnit, q: Text, t: Text)
    ensures Test(canon, [Chars(q)], t) <==> Within(canon, q, t)
  {
    if Test(canon, [Chars(q)], t) {
      var a, i: int :| 0 <= a < 1 && 0 <= i <= |t| && MatchesFrom(canon, [Chars(q)][a], t, i);
      CharsMatch(canon, q, t, i);
    }
    if Within(canon, q, t) {
      var i: nat :| At(canon, q, t, i);
      CharsMatch(canon, q, t, i);
      assert MatchesFrom(canon, [Chars(q)][0], t, i);
    }
  }
}
