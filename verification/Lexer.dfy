/** The simple lexers: cutting a source into tokens, classifying each token, and
    handing the embedded part of a token to another language. */
module Lexer {
  import opened Prelude
  import opened Decorations

  const PLAIN: Text := [112, 108, 110]  // pln
  const SOURCE: Text := [115, 114, 99]  // src
  const LANG: Text := [108, 97, 110, 103, 45]  // lang-

  // ---- languages ----

  /** What a match of a token pattern captured: `t[1]`, and `t[2]` or nothing. */
  datatype Groups = Groups(first: Option<Text>, second: Text)

  datatype Rule = Rule(style: Text, match_: Text -> Option<Groups>)

  /** A lexer made by `createSimpleLexer`: the matches of the combined pattern, the
      rules reached by a first character, and the rules tried in order. */
  datatype SimpleLexer = SimpleLexer(tokens: Text -> seq<Text>, shortcut: CodeUnit -> Option<Rule>, rules: seq<Rule>)

  /** A registered language handler: a simple lexer, or any other program. */
  datatype Handler = Simple(lexer: SimpleLexer) | Custom(run: (Text, nat) -> seq<Decoration>)

  /** What a token is: a style, or a text in another language to be decorated there. */
  datatype Class = Styled(style: Text) | Embedded(lang: Text, inner: Text, second: Text)

  /** The first rule from index `i` on that matches the token. */
  function FirstMatch(rules: seq<Rule>, z: Text, i: nat): Option<(Text, Groups)>
    requires i <= |rules|
    decreases |rules| - i
  {
    if i == |rules| then None
    else
      var t := rules[i].match_(z);
      if t.Some? then Some((rules[i].style, t.value)) else FirstMatch(rules, z, i + 1)
  }

  predicate IsLanguage(style: Text) { |style| >= 5 && style[..5] == LANG }

  /** The style a rule gives a token, with what its pattern captured. */
  function Resolve(style: Text, t: Option<Groups>): Class {
    if !IsLanguage(style) then Styled(style)
    else if t.Some? && t.value.first.Some? then Embedded(style[5..], t.value.first.value, t.value.second)
    else Styled(SOURCE)
  }

  /** Classification without the cache: it depends on the token alone. */
  function Classify(lexer: SimpleLexer, z: Text): Class
    requires z != []
  {
    var h := lexer.shortcut(z[0]);
    if h.Some? then Resolve(h.value.style, h.value.match_(z))
    else
      var m := FirstMatch(lexer.rules, z, 0);
      if m.Some? then Resolve(m.value.0, Some(m.value.1)) else Styled(PLAIN)
  }

  type Registry = map<Text, Handler>

  /** `/^\s*</.test(text)` */
  predicate LooksLikeMarkup(text: Text) {
    text != [] && (text[0] == 60 || (IsSpace(text[0]) && LooksLikeMarkup(text[1..])))
  }

  const MARKUP := Ascii("default-markup")
  const CODE := Ascii("default-code")

  /** The language that handles a text asked for by this name. */
  function LangFor(reg: Registry, name: Text, text: Text): Text {
    if name == [] || name !in reg then (if LooksLikeMarkup(text) then MARKUP else CODE) else name
  }

  // ---- what handlers owe ----

  /** `z.indexOf(f)` for an `f` that occurs. */
  predicate OccursAt(f: Text, z: Text, i: nat) { i + |f| <= |z| && z[i..i+|f|] == f }

  function IndexFrom(f: Text, z: Text, i: nat): (k: nat)
    requires i <= |z| && exists j :: i <= j <= |z| && OccursAt(f, z, j)
    ensures i <= k && OccursAt(f, z, k) && forall j: nat :: i <= j < k ==> !OccursAt(f, z, j)
    decreases |z| - i
  {
    if OccursAt(f, z, i) then i else IndexFrom(f, z, i + 1)
  }

  predicate IsPartOf(f: Text, z: Text) { exists j :: 0 <= j <= |z| && OccursAt(f, z, j) }

  /** Captures that leave prefix and suffix shorter than the token. A second group ends
      the token, and the first ends where the second begins. */
  predicate GroupsFit(z: Text, inner: Text, second: Text) {
    && |inner| + |second| <= |z|
    && (if second == [] then inner != [] && IsPartOf(inner, z)
        else |second| < |z| && z[|z| - |second| - |inner|..] == inner + second)
  }

  /** The embedded text stands at `l`: right in front of the second group, which ends the
      token, or else there for the first time. */
  ghost predicate CaptureAt(z: Text, inner: Text, second: Text, l: nat) {
    && l + |inner| <= |z| && z[l..l + |inner|] == inner
    && if second != [] then z[l + |inner|..] == second
       else forall j: nat :: j < l ==> !OccursAt(inner, z, j)
  }

  /** Where the embedded text starts: in front of the second group, or where it first occurs. */
  function InnerStart(z: Text, inner: Text, second: Text): (l: nat)
    requires GroupsFit(z, inner, second)
    ensures l + |inner| <= |z| && l < |z| && |z| - (l + |inner|) < |z|
    ensures CaptureAt(z, inner, second, l)
  {
    if second != [] then
      var l := |z| - |second| - |inner|;
      assert z[l..][..|inner|] == z[l..l + |inner|] && z[l..][|inner|..] == z[l + |inner|..];
      l
    else IndexFrom(inner, z, 0)
  }

  /** A lexer's tokens tile the source; captures fit; and embedding the whole
      source goes to a language of smaller rank. */
  ghost predicate LexerOk(reg: Registry, rank: Text -> nat, name: Text, lexer: SimpleLexer) {
    && (forall src :: Concat(lexer.tokens(src)) == src && [] !in lexer.tokens(src))
    && (forall src, z :: z in lexer.tokens(src) && z != [] && Classify(lexer, z).Embedded? ==>
          var c := Classify(lexer, z);
          && GroupsFit(z, c.inner, c.second)
          && (|c.inner| == |src| ==> rank(LangFor(reg, c.lang, c.inner)) < rank(name)))
  }

  /** The positions a handler reports lie in its source and do not decrease. */
  predicate Within(ds: seq<Decoration>, lo: nat, hi: nat) {
    NonDecreasing(ds) && forall d :: d in ds ==> lo <= d.pos <= hi
  }

  predicate StartsAt(ds: seq<Decoration>, lo: nat) { ds != [] && ds[0].pos == lo }

  /** The position contract: it also starts at the base. */
  predicate Covers(ds: seq<Decoration>, lo: nat, hi: nat) { StartsAt(ds, lo) && Within(ds, lo, hi) }

  ghost predicate HandlerOk(reg: Registry, rank: Text -> nat, name: Text) {
    name in reg &&
    match reg[name]
    case Simple(lexer) => LexerOk(reg, rank, name, lexer)
    case Custom(run) => forall src: Text, at: nat :: Covers(run(src, at), at, at + |src|)
  }

  ghost predicate RegistryOk(reg: Registry, rank: Text -> nat) {
    && MARKUP in reg && CODE in reg
    && forall name :: name in reg ==> HandlerOk(reg, rank, name)
  }

  lemma {:induction false} TokenFits(toks: seq<Text>, i: nat)
    requires i < |toks|
    ensures |toks[i]| <= |Concat(toks)|
  {
    if i > 0 { TokenFits(toks[1..], i - 1); }
  }

  /** What a registered lexer guarantees of its `i`-th token. */
  lemma TokenOk(reg: Registry, rank: Text -> nat, name: Text, lexer: SimpleLexer, src: Text, i: nat)
    requires RegistryOk(reg, rank) && name in reg && reg[name] == Simple(lexer)
    requires i < |lexer.tokens(src)|
    ensures var z := lexer.tokens(src)[i];
            && z != [] && |z| <= |src|
            && (Classify(lexer, z).Embedded? ==>
                  var c := Classify(lexer, z);
                  && GroupsFit(z, c.inner, c.second)
                  && LangFor(reg, c.lang, c.inner) in reg
                  && (|c.inner| == |src| ==> rank(LangFor(reg, c.lang, c.inner)) < rank(name)))
  {
    assert HandlerOk(reg, rank, name);
    TokenFits(lexer.tokens(src), i);
    hide Classify, GroupsFit;
    assert lexer.tokens(src)[i] in lexer.tokens(src);
  }

  /** A registered lexer's tokens tile its source. */
  lemma TokensTile(reg: Registry, rank: Text -> nat, name: Text, lexer: SimpleLexer, src: Text)
    requires RegistryOk(reg, rank) && name in reg && reg[name] == Simple(lexer)
    ensures Concat(lexer.tokens(src)) == src
  {
    assert HandlerOk(reg, rank, name);
  }

  lemma CustomOk(reg: Registry, rank: Text -> nat, name: Text, src: Text, at: nat)
    requires RegistryOk(reg, rank) && name in reg && reg[name].Custom?
    ensures Covers(reg[name].run(src, at), at, at + |src|)
  {
    assert HandlerOk(reg, rank, name);
  }

  // ---- decorating, without the cache ----

  function Decorate(reg: Registry, ghost rank: Text -> nat, name: Text, src: Text, at: nat): seq<Decoration>
    requires RegistryOk(reg, rank) && name in reg
    decreases |src|, rank(name), 2, 0
  {
    match reg[name]
    case Custom(run) => run(src, at)
    case Simple(lexer) => [Decoration(at, PLAIN)] + DecorateTokens(reg, rank, name, lexer, src, 0, at)
  }

  /** The decorations of the tokens from the `i`-th on, which starts at `at`. */
  function DecorateTokens(reg: Registry, ghost rank: Text -> nat, name: Text, lexer: SimpleLexer, src: Text,
                          i: nat, at: nat): seq<Decoration>
    requires RegistryOk(reg, rank) && name in reg && reg[name] == Simple(lexer)
    requires i <= |lexer.tokens(src)|
    decreases |src|, rank(name), 1, |lexer.tokens(src)| - i
  {
    if i == |lexer.tokens(src)| then []
    else DecorateToken(reg, rank, name, lexer, src, i, at)
         + DecorateTokens(reg, rank, name, lexer, src, i + 1, at + |lexer.tokens(src)[i]|)
  }

  function DecorateToken(reg: Registry, ghost rank: Text -> nat, name: Text, lexer: SimpleLexer, src: Text,
                         i: nat, at: nat): seq<Decoration>
    requires RegistryOk(reg, rank) && name in reg && reg[name] == Simple(lexer)
    requires i < |lexer.tokens(src)|
    decreases |src|, rank(name), 0, 0
  {
    TokenOk(reg, rank, name, lexer, src, i);
    var z := lexer.tokens(src)[i];
    match Classify(lexer, z)
    case Styled(style) => [Decoration(at, style)]
    case Embedded(lang, inner, second) =>
      var l := InnerStart(z, inner, second);
      var r := l + |inner|;
      (if l == 0 then [] else Decorate(reg, rank, name, z[..l], at))
      + (if inner == [] then [] else Decorate(reg, rank, LangFor(reg, lang, inner), inner, at + l))
      + (if r == |z| then [] else Decorate(reg, rank, name, z[r..], at + r))
  }

  // ---- the position contract of a simple lexer ----

  lemma WithinConcat(a: seq<Decoration>, b: seq<Decoration>, lo: nat, mid: nat, hi: nat)
    requires Within(a, lo, mid) && Within(b, mid, hi) && lo <= mid <= hi
    ensures Within(a + b, lo, hi)
  {
    forall i, j | 0 <= i < j < |a + b| ensures (a + b)[i].pos <= (a + b)[j].pos {
      if i < |a| <= j {
        assert a[i] in a && b[j - |a|] in b;
      }
    }
  }

  /** The decorations of consecutive parts, of which the empty ones have none. */
  lemma CoverParts(a: seq<Decoration>, b: seq<Decoration>, d: seq<Decoration>, p0: nat, p1: nat, p2: nat, p3: nat)
    requires p0 <= p1 <= p2 <= p3 && p0 < p3
    requires if p0 == p1 then a == [] else Covers(a, p0, p1)
    requires if p1 == p2 then b == [] else Covers(b, p1, p2)
    requires if p2 == p3 then d == [] else Covers(d, p2, p3)
    ensures Covers(a + b + d, p0, p3)
  {
    WithinConcat(a, b, p0, p1, p2);
    WithinConcat(a + b, d, p0, p2, p3);
  }

  /** Every handler meets the position contract: even through embedded parts, the
      positions start at the base, stay in the source and do not decrease. */
  lemma {:induction false} DecorateCovers(reg: Registry, rank: Text -> nat, name: Text, src: Text, at: nat)
    requires RegistryOk(reg, rank) && name in reg
    ensures Covers(Decorate(reg, rank, name, src, at), at, at + |src|)
    decreases |src|, rank(name), 2, 0
  {
    hide RegistryOk;
    if reg[name].Simple? {
      var lexer := reg[name].lexer;
      TokensTile(reg, rank, name, lexer, src);
      TokensCover(reg, rank, name, lexer, src, 0, at);
      var first, rest := [Decoration(at, PLAIN)], DecorateTokens(reg, rank, name, lexer, src, 0, at);
      assert lexer.tokens(src)[0..] == lexer.tokens(src);
      assert Decorate(reg, rank, name, src, at) == first + rest;
      hide DecorateTokens, Concat;
      WithinConcat(first, rest, at, at, at + |src|);
    } else {
      CustomOk(reg, rank, name, src, at);
    }
  }

  lemma {:induction false} TokensCover(reg: Registry, rank: Text -> nat, name: Text, lexer: SimpleLexer, src: Text,
                                       i: nat, at: nat)
    requires RegistryOk(reg, rank) && name in reg && reg[name] == Simple(lexer)
    requires i <= |lexer.tokens(src)|
    ensures Within(DecorateTokens(reg, rank, name, lexer, src, i, at), at, at + |Concat(lexer.tokens(src)[i..])|)
    ensures i < |lexer.tokens(src)| ==> StartsAt(DecorateTokens(reg, rank, name, lexer, src, i, at), at)
    decreases |src|, rank(name), 1, |lexer.tokens(src)| - i
  {
    hide RegistryOk, DecorateToken;
    var toks := lexer.tokens(src);
    if i < |toks| {
      TokenCovers(reg, rank, name, lexer, src, i, at);
      TokensCover(reg, rank, name, lexer, src, i + 1, at + |toks[i]|);
      var a := DecorateToken(reg, rank, name, lexer, src, i, at);
      var b := DecorateTokens(reg, rank, name, lexer, src, i + 1, at + |toks[i]|);
      assert DecorateTokens(reg, rank, name, lexer, src, i, at) == a + b;
      assert toks[i..][1..] == toks[i+1..];
      WithinConcat(a, b, at, at + |toks[i]|, at + |Concat(toks[i..])|);
    }
  }

  lemma {:induction false} TokenCovers(reg: Registry, rank: Text -> nat, name: Text, lexer: SimpleLexer, src: Text,
                                       i: nat, at: nat)
    requires RegistryOk(reg, rank) && name in reg && reg[name] == Simple(lexer)
    requires i < |lexer.tokens(src)|
    ensures Covers(DecorateToken(reg, rank, name, lexer, src, i, at), at, at + |lexer.tokens(src)[i]|)
    decreases |src|, rank(name), 0, 0
  {
    hide RegistryOk, Decorate, Classify, GroupsFit, LangFor, Covers;
    var z := lexer.tokens(src)[i];
    TokenOk(reg, rank, name, lexer, src, i);
    var c := Classify(lexer, z);
    if c.Embedded? {
      var l := InnerStart(z, c.inner, c.second);
      var r := l + |c.inner|;
      if l > 0 { DecorateCovers(reg, rank, name, z[..l], at); }
      if c.inner != [] { DecorateCovers(reg, rank, LangFor(reg, c.lang, c.inner), c.inner, at + l); }
      if r < |z| { DecorateCovers(reg, rank, name, z[r..], at + r); }
      var a := if l == 0 then [] else Decorate(reg, rank, name, z[..l], at);
      var b := if c.inner == [] then [] else Decorate(reg, rank, LangFor(reg, c.lang, c.inner), c.inner, at + l);
      var d := if r == |z| then [] else Decorate(reg, rank, name, z[r..], at + r);
      assert DecorateToken(reg, rank, name, lexer, src, i, at) == a + b + d;
      CoverParts(a, b, d, at, at + l, at + r, at + |z|);
    } else {
      StyledCovers(at, c.style, |z|);
    }
  }

  lemma StyledCovers(at: nat, style: Text, n: nat)
    ensures Covers([Decoration(at, style)], at, at + n)
  {}

  // ---- which style every character gets ----

  /** The style of every character of a source: that of its token, or the style
      the embedded language gives it. */
  function Styles(reg: Registry, ghost rank: Text -> nat, name: Text, src: Text, at: nat): (styles: seq<Option<Text>>)
    requires RegistryOk(reg, rank) && name in reg
    ensures |styles| == |src|
    decreases |src|, rank(name), 2, 0
  {
    match reg[name]
    case Custom(run) => seq(|src|, i requires 0 <= i < |src| => StyleAt(run(src, at), at + i))
    case Simple(lexer) =>
      TokensTile(reg, rank, name, lexer, src);
      assert lexer.tokens(src)[0..] == lexer.tokens(src);
      TokensStyles(reg, rank, name, lexer, src, 0, at)
  }

  function TokensStyles(reg: Registry, ghost rank: Text -> nat, name: Text, lexer: SimpleLexer, src: Text,
                        i: nat, at: nat): (styles: seq<Option<Text>>)
    requires RegistryOk(reg, rank) && name in reg && reg[name] == Simple(lexer)
    requires i <= |lexer.tokens(src)|
    ensures |styles| == |Concat(lexer.tokens(src)[i..])|
    decreases |src|, rank(name), 1, |lexer.tokens(src)| - i
  {
    if i == |lexer.tokens(src)| then []
    else
      assert lexer.tokens(src)[i..][1..] == lexer.tokens(src)[i+1..];
      TokenStyles(reg, rank, name, lexer, src, i, at)
      + TokensStyles(reg, rank, name, lexer, src, i + 1, at + |lexer.tokens(src)[i]|)
  }

  function TokenStyles(reg: Registry, ghost rank: Text -> nat, name: Text, lexer: SimpleLexer, src: Text,
                       i: nat, at: nat): (styles: seq<Option<Text>>)
    requires RegistryOk(reg, rank) && name in reg && reg[name] == Simple(lexer)
    requires i < |lexer.tokens(src)|
    ensures |styles| == |lexer.tokens(src)[i]|
    decreases |src|, rank(name), 0, 0
  {
    TokenOk(reg, rank, name, lexer, src, i);
    var z := lexer.tokens(src)[i];
    match Classify(lexer, z)
    case Styled(style) => seq(|z|, k => Some(style))
    case Embedded(lang, inner, second) =>
      var l := InnerStart(z, inner, second);
      var r := l + |inner|;
      (if l == 0 then [] else Styles(reg, rank, name, z[..l], at))
      + (if inner == [] then [] else Styles(reg, rank, LangFor(reg, lang, inner), inner, at + l))
      + (if r == |z| then [] else Styles(reg, rank, name, z[r..], at + r))
  }

  /** The decorations say of every position in a range what `styles` says. */
  predicate Says(ds: seq<Decoration>, styles: seq<Option<Text>>, lo: nat) {
    forall i :: 0 <= i < |styles| ==> StyleAt(ds, lo + i) == styles[i]
  }

  lemma {:induction false} StyleAtConcat(a: seq<Decoration>, b: seq<Decoration>, p: nat)
    ensures StyleAt(a + b, p) == if StyleAt(b, p).Some? then StyleAt(b, p) else StyleAt(a, p)
  {
    if b == [] {
      assert a + b == a;
    } else {
      assert (a + b)[..|a + b|-1] == a + b[..|b|-1];
      StyleAtConcat(a, b[..|b|-1], p);
    }
  }

  lemma SaysConcat(a: seq<Decoration>, s: seq<Option<Text>>, b: seq<Decoration>, t: seq<Option<Text>>, lo: nat)
    requires Says(a, s, lo) && Says(b, t, lo + |s|)
    requires NonDecreasing(b) && (b == [] ==> t == []) && (b != [] ==> b[0].pos == lo + |s|)
    ensures Says(a + b, s + t, lo)
  {
    forall i | 0 <= i < |s + t| ensures StyleAt(a + b, lo + i) == (s + t)[i] {
      StyleAtConcat(a, b, lo + i);
      StyledFromFirst(b, lo + i);
      if i >= |s| { assert StyleAt(b, lo + |s| + (i - |s|)) == t[i - |s|]; }
    }
  }

  /** The same for three consecutive parts, of which the empty ones have no decorations. */
  lemma SaysParts(a: seq<Decoration>, s: seq<Option<Text>>, b: seq<Decoration>, t: seq<Option<Text>>,
                  d: seq<Decoration>, u: seq<Option<Text>>, lo: nat)
    requires if s == [] then a == [] else StartsAt(a, lo) && NonDecreasing(a) && Says(a, s, lo)
    requires if t == [] then b == [] else StartsAt(b, lo + |s|) && NonDecreasing(b) && Says(b, t, lo + |s|)
    requires if u == [] then d == []
             else StartsAt(d, lo + |s| + |t|) && NonDecreasing(d) && Says(d, u, lo + |s| + |t|)
    ensures Says(a + b + d, s + t + u, lo)
  {
    SaysConcat(a, s, b, t, lo);
    SaysConcat(a + b, s + t, d, u, lo);
  }

  /** At every position of its source the style in force is the style of the
      character there. */
  lemma {:induction false} DecorateSays(reg: Registry, rank: Text -> nat, name: Text, src: Text, at: nat)
    requires RegistryOk(reg, rank) && name in reg
    ensures Says(Decorate(reg, rank, name, src, at), Styles(reg, rank, name, src, at), at)
    decreases |src|, rank(name), 2, 0
  {
    if reg[name].Simple? { SimpleSays(reg, rank, name, reg[name].lexer, src, at); }
  }

  lemma {:induction false} SimpleSays(reg: Registry, rank: Text -> nat, name: Text, lexer: SimpleLexer, src: Text, at: nat)
    requires RegistryOk(reg, rank) && name in reg && reg[name] == Simple(lexer)
    ensures Says(Decorate(reg, rank, name, src, at), Styles(reg, rank, name, src, at), at)
    decreases |src|, rank(name), 1, |lexer.tokens(src)| + 1
  {
    hide RegistryOk, Says;
    TokensTile(reg, rank, name, lexer, src);
    TokensCover(reg, rank, name, lexer, src, 0, at);
    TokensSay(reg, rank, name, lexer, src, 0, at);
    assert lexer.tokens(src)[0..] == lexer.tokens(src);
    var rest, styles := DecorateTokens(reg, rank, name, lexer, src, 0, at), TokensStyles(reg, rank, name, lexer, src, 0, at);
    assert |lexer.tokens(src)| == 0 ==> styles == [];
    assert Decorate(reg, rank, name, src, at) == [Decoration(at, PLAIN)] + rest;
    SaysBehind(Decoration(at, PLAIN), rest, styles, at);
  }

  /** What stands in front of a list that styles everything says nothing. */
  lemma SaysBehind(first: Decoration, ds: seq<Decoration>, styles: seq<Option<Text>>, lo: nat)
    requires Says(ds, styles, lo) && NonDecreasing(ds) && (ds == [] ==> styles == []) && (ds != [] ==> ds[0].pos == lo)
    ensures Says([first] + ds, styles, lo)
  {
    SaysConcat([first], [], ds, styles, lo);
    assert [] + styles == styles;
  }

  lemma {:induction false} TokensSay(reg: Registry, rank: Text -> nat, name: Text, lexer: SimpleLexer, src: Text,
                                     i: nat, at: nat)
    requires RegistryOk(reg, rank) && name in reg && reg[name] == Simple(lexer)
    requires i <= |lexer.tokens(src)|
    ensures Says(DecorateTokens(reg, rank, name, lexer, src, i, at), TokensStyles(reg, rank, name, lexer, src, i, at), at)
    decreases |src|, rank(name), 1, |lexer.tokens(src)| - i
  {
    hide RegistryOk, DecorateToken, TokenStyles;
    var toks := lexer.tokens(src);
    if i < |toks| {
      var next := at + |toks[i]|;
      TokenSays(reg, rank, name, lexer, src, i, at);
      TokensSay(reg, rank, name, lexer, src, i + 1, next);
      TokensCover(reg, rank, name, lexer, src, i + 1, next);
      var a, b := DecorateToken(reg, rank, name, lexer, src, i, at), DecorateTokens(reg, rank, name, lexer, src, i + 1, next);
      var s, t := TokenStyles(reg, rank, name, lexer, src, i, at), TokensStyles(reg, rank, name, lexer, src, i + 1, next);
      assert DecorateTokens(reg, rank, name, lexer, src, i, at) == a + b;
      assert TokensStyles(reg, rank, name, lexer, src, i, at) == s + t;
      hide DecorateTokens, TokensStyles, Says;
      SaysConcat(a, s, b, t, at);
    }
  }

  lemma {:induction false} TokenSays(reg: Registry, rank: Text -> nat, name: Text, lexer: SimpleLexer, src: Text,
                                     i: nat, at: nat)
    requires RegistryOk(reg, rank) && name in reg && reg[name] == Simple(lexer)
    requires i < |lexer.tokens(src)|
    ensures Says(DecorateToken(reg, rank, name, lexer, src, i, at), TokenStyles(reg, rank, name, lexer, src, i, at), at)
    decreases |src|, rank(name), 0, 0
  {
    hide RegistryOk, Decorate, Styles, Classify, GroupsFit, LangFor, Says, NonDecreasing, StartsAt;
    var z := lexer.tokens(src)[i];
    TokenOk(reg, rank, name, lexer, src, i);
    var c := Classify(lexer, z);
    if c.Embedded? {
      var l := InnerStart(z, c.inner, c.second);
      var r := l + |c.inner|;
      var inner := LangFor(reg, c.lang, c.inner);
      if l > 0 { PartSays(reg, rank, name, z[..l], at); }
      if c.inner != [] { PartSays(reg, rank, inner, c.inner, at + l); }
      if r < |z| { PartSays(reg, rank, name, z[r..], at + r); }
      var a := if l == 0 then [] else Decorate(reg, rank, name, z[..l], at);
      var b := if c.inner == [] then [] else Decorate(reg, rank, inner, c.inner, at + l);
      var d := if r == |z| then [] else Decorate(reg, rank, name, z[r..], at + r);
      var s := if l == 0 then [] else Styles(reg, rank, name, z[..l], at);
      var t := if c.inner == [] then [] else Styles(reg, rank, inner, c.inner, at + l);
      var u := if r == |z| then [] else Styles(reg, rank, name, z[r..], at + r);
      assert DecorateToken(reg, rank, name, lexer, src, i, at) == a + b + d;
      assert TokenStyles(reg, rank, name, lexer, src, i, at) == s + t + u;
      SaysParts(a, s, b, t, d, u, at);
    } else {
      StyledSays(at, c.style, |z|);
    }
  }

  lemma StyledSays(at: nat, style: Text, n: nat)
    ensures Says([Decoration(at, style)], seq(n, k => Some(style)), at)
  {}

  lemma {:induction false} PartSays(reg: Registry, rank: Text -> nat, name: Text, part: Text, at: nat)
    requires RegistryOk(reg, rank) && name in reg
    ensures var ds := Decorate(reg, rank, name, part, at);
            StartsAt(ds, at) && NonDecreasing(ds) && Says(ds, Styles(reg, rank, name, part, at), at)
    decreases |part|, rank(name), 3, 0
  {
    hide RegistryOk, Decorate, Styles;
    DecorateCovers(reg, rank, name, part, at);
    DecorateSays(reg, rank, name, part, at);
  }

  // ---- the styles of a token's characters ----

  lemma CaptureIsUnique(z: Text, inner: Text, second: Text, l: nat)
    requires GroupsFit(z, inner, second) && CaptureAt(z, inner, second, l)
    ensures l == InnerStart(z, inner, second)
  {
    var k := InnerStart(z, inner, second);
    if second == [] && l < k { assert OccursAt(inner, z, l); }
  }

  /** What a token is, by the rules: that of its first character, or the first that
      matches it, decides. A style that begins with `lang-` and a capture embed the
      capture in the language it names; without a capture the token is source. */
  lemma ClassifyMeans(lexer: SimpleLexer, z: Text, rule: Rule, k: nat)
    requires z != []
    requires if lexer.shortcut(z[0]).Some? then rule == lexer.shortcut(z[0]).value
             else k < |lexer.rules| && rule == lexer.rules[k] && rule.match_(z).Some?
                  && forall j :: 0 <= j < k ==> lexer.rules[j].match_(z).None?
    ensures var t, embeds := rule.match_(z), |rule.style| >= 5 && rule.style[..5] == Ascii("lang-");
            && (!embeds ==> Classify(lexer, z) == Styled(rule.style))
            && (embeds && (t.None? || t.value.first.None?) ==> Classify(lexer, z) == Styled(Ascii("src")))
            && (embeds && t.Some? && t.value.first.Some? ==>
                  Classify(lexer, z) == Embedded(rule.style[5..], t.value.first.value, t.value.second))
  {
    assert LANG == Ascii("lang-") && SOURCE == Ascii("src");
    if lexer.shortcut(z[0]).None? { FirstMatchIs(lexer.rules, z, 0, k); }
  }

  lemma {:induction false} FirstMatchIs(rules: seq<Rule>, z: Text, i: nat, k: nat)
    requires i <= k < |rules| && rules[k].match_(z).Some? && forall j :: i <= j < k ==> rules[j].match_(z).None?
    ensures FirstMatch(rules, z, i) == Some((rules[k].style, rules[k].match_(z).value))
    decreases k - i
  {
    if i < k { FirstMatchIs(rules, z, i + 1, k); }
  }

  /** A token that no rule matches is plain. */
  lemma {:induction false} UnmatchedIsPlain(lexer: SimpleLexer, z: Text)
    requires z != [] && lexer.shortcut(z[0]).None? && forall j :: 0 <= j < |lexer.rules| ==> lexer.rules[j].match_(z).None?
    ensures Classify(lexer, z) == Styled(Ascii("pln"))
  {
    assert PLAIN == Ascii("pln");
    NoFirstMatch(lexer.rules, z, 0);
  }

  lemma {:induction false} NoFirstMatch(rules: seq<Rule>, z: Text, i: nat)
    requires i <= |rules| && forall j :: i <= j < |rules| ==> rules[j].match_(z).None?
    ensures FirstMatch(rules, z, i) == None
    decreases |rules| - i
  {
    if i < |rules| { NoFirstMatch(rules, z, i + 1); }
  }

  /** The language of a text: the one named, if it is registered; otherwise that of markup
      just for a text that begins with `<` behind white space. */
  lemma {:induction false} LangForMeans(reg: Registry, name: Text, text: Text, spaces: Text, rest: Text)
    requires text == spaces + rest && (forall i :: 0 <= i < |spaces| ==> IsSpace(spaces[i])) && (rest != [] ==> !IsSpace(rest[0]))
    ensures name != [] && name in reg ==> LangFor(reg, name, text) == name
    ensures name == [] || name !in reg ==>
              LangFor(reg, name, text) == if rest != [] && rest[0] == 60 then Ascii("default-markup") else Ascii("default-code")
    decreases |spaces|
  {
    if spaces == [] {
      assert text == rest;
    } else {
      assert text[0] == spaces[0] && text[1..] == spaces[1..] + rest && spaces[0] != 60;
      LangForMeans(reg, name, text[1..], spaces[1..], rest);
    }
  }

  /** The style in force at the `p`-th character of a text decorated from `at` on. */
  ghost function StyleOf(reg: Registry, rank: Text -> nat, name: Text, text: Text, at: nat, p: nat): Option<Text>
    requires RegistryOk(reg, rank) && name in reg
  {
    StyleAt(Decorate(reg, rank, name, text, at), at + p)
  }

  lemma StyleIs(reg: Registry, rank: Text -> nat, name: Text, text: Text, at: nat, p: nat)
    requires RegistryOk(reg, rank) && name in reg && p < |text|
    ensures StyleOf(reg, rank, name, text, at, p) == Styles(reg, rank, name, text, at)[p]
  {
    hide RegistryOk, Decorate, Styles;
    DecorateSays(reg, rank, name, text, at);
  }

  lemma {:induction false} TokensStylesAt(reg: Registry, rank: Text -> nat, name: Text, lexer: SimpleLexer, src: Text,
                                          j: nat, at: nat, i: nat)
    requires RegistryOk(reg, rank) && name in reg && reg[name] == Simple(lexer)
    requires j <= i < |lexer.tokens(src)|
    ensures var o, here := |Concat(lexer.tokens(src)[j..i])|, TokenStyles(reg, rank, name, lexer, src, i, at + |Concat(lexer.tokens(src)[j..i])|);
            var all := TokensStyles(reg, rank, name, lexer, src, j, at);
            o + |here| <= |all| && all[o..o + |here|] == here
    decreases i - j
  {
    hide RegistryOk, TokenStyles, TokensStyles, Concat;
    var toks := lexer.tokens(src);
    TokensStylesStep(reg, rank, name, lexer, src, j, at);
    var first := TokenStyles(reg, rank, name, lexer, src, j, at);
    var rest := TokensStyles(reg, rank, name, lexer, src, j + 1, at + |toks[j]|);
    ConcatFrom(toks, j, i);
    if j < i {
      TokensStylesAt(reg, rank, name, lexer, src, j + 1, at + |toks[j]|, i);
      var o := |Concat(toks[j + 1..i])|;
      PartOfRest(first, rest, o, |toks[i]|);
    }
  }

  lemma TokensStylesStep(reg: Registry, rank: Text -> nat, name: Text, lexer: SimpleLexer, src: Text, j: nat, at: nat)
    requires RegistryOk(reg, rank) && name in reg && reg[name] == Simple(lexer)
    requires j < |lexer.tokens(src)|
    ensures TokensStyles(reg, rank, name, lexer, src, j, at)
         == TokenStyles(reg, rank, name, lexer, src, j, at)
            + TokensStyles(reg, rank, name, lexer, src, j + 1, at + |lexer.tokens(src)[j]|)
  {
    hide RegistryOk, TokenStyles;
  }

  lemma ConcatFrom(toks: seq<Text>, j: nat, i: nat)
    requires j <= i < |toks|
    ensures Concat(toks[j..i]) == if j < i then toks[j] + Concat(toks[j + 1..i]) else []
  {
    if j < i { assert toks[j..i][1..] == toks[j + 1..i] && toks[j..i][0] == toks[j]; }
  }

  lemma PartOfRest<T>(first: seq<T>, rest: seq<T>, o: nat, n: nat)
    requires o + n <= |rest|
    ensures (first + rest)[|first| + o..|first| + o + n] == rest[o..o + n]
  {}

  /** The style of a character of a source is that of the character of its token. */
  lemma StyleInToken(reg: Registry, rank: Text -> nat, name: Text, lexer: SimpleLexer, src: Text, i: nat, at: nat, p: nat)
    requires RegistryOk(reg, rank) && name in reg && reg[name] == Simple(lexer)
    requires i < |lexer.tokens(src)| && p < |lexer.tokens(src)[i]|
    ensures var o := |Concat(lexer.tokens(src)[..i])|;
            && o + p < |src|
            && StyleOf(reg, rank, name, src, at, o + p) == TokenStyles(reg, rank, name, lexer, src, i, at + o)[p]
  {
    hide RegistryOk, TokenStyles, TokensStyles, Decorate;
    var toks := lexer.tokens(src);
    TokensTile(reg, rank, name, lexer, src);
    TokensStylesAt(reg, rank, name, lexer, src, 0, at, i);
    assert toks[0..i] == toks[..i] && toks[0..] == toks;
    var o, here := |Concat(toks[..i])|, TokenStyles(reg, rank, name, lexer, src, i, at + |Concat(toks[..i])|);
    var all := TokensStyles(reg, rank, name, lexer, src, 0, at);
    assert all == Styles(reg, rank, name, src, at);
    assert all[o..o + |here|][p] == all[o + p];
    StyleIs(reg, rank, name, src, at, o + p);
  }

  /** Every character of a token that embeds nothing has the token's style. */
  lemma StyledTokens(reg: Registry, rank: Text -> nat, name: Text, lexer: SimpleLexer, src: Text, i: nat, at: nat, p: nat)
    requires RegistryOk(reg, rank) && name in reg && reg[name] == Simple(lexer)
    requires i < |lexer.tokens(src)| && p < |lexer.tokens(src)[i]| && lexer.tokens(src)[i] != []
    requires Classify(lexer, lexer.tokens(src)[i]).Styled?
    ensures StyleOf(reg, rank, name, src, at, |Concat(lexer.tokens(src)[..i])| + p)
         == Some(Classify(lexer, lexer.tokens(src)[i]).style)
  {
    hide RegistryOk, Classify, StyleOf;
    StyleInToken(reg, rank, name, lexer, src, i, at, p);
  }

  /** A token that embeds a text: the characters of the capture have the styles that its
      language gives the capture, and those in front of it and behind it the styles that
      the token's own language gives these parts. */
  lemma EmbeddedTokens(reg: Registry, rank: Text -> nat, name: Text, lexer: SimpleLexer, src: Text, i: nat, at: nat, p: nat, l: nat)
    requires RegistryOk(reg, rank) && name in reg && reg[name] == Simple(lexer)
    requires i < |lexer.tokens(src)| && p < |lexer.tokens(src)[i]| && lexer.tokens(src)[i] != []
    requires var c := Classify(lexer, lexer.tokens(src)[i]);
             c.Embedded? && CaptureAt(lexer.tokens(src)[i], c.inner, c.second, l)
    ensures var z, o := lexer.tokens(src)[i], |Concat(lexer.tokens(src)[..i])|;
            var c := Classify(lexer, z);
            var r, lang := l + |c.inner|, LangFor(reg, c.lang, c.inner);
            && lang in reg
            && StyleOf(reg, rank, name, src, at, o + p)
               == if p < l then StyleOf(reg, rank, name, z[..l], at + o, p)
                  else if p < r then StyleOf(reg, rank, lang, z[l..r], at + o + l, p - l)
                  else StyleOf(reg, rank, name, z[r..], at + o + r, p - r)
  {
    hide RegistryOk, Classify, StyleOf, GroupsFit, LangFor, Styles;
    var z, o := lexer.tokens(src)[i], |Concat(lexer.tokens(src)[..i])|;
    var c := Classify(lexer, z);
    TokenOk(reg, rank, name, lexer, src, i);
    CaptureIsUnique(z, c.inner, c.second, l);
    StyleInToken(reg, rank, name, lexer, src, i, at, p);
    var r, lang := l + |c.inner|, LangFor(reg, c.lang, c.inner);
    if p < l {
      StyleIs(reg, rank, name, z[..l], at + o, p);
    } else if p < r {
      StyleIs(reg, rank, lang, c.inner, at + o + l, p - l);
    } else {
      StyleIs(reg, rank, name, z[r..], at + o + r, p - r);
    }
  }

  // ---- the lexing loop, with its style cache ----

  lemma FlatConcat(k: seq<Cell>, ds: seq<Decoration>, k': seq<Cell>, ds': seq<Decoration>)
    requires IsFlat(k, ds) && IsFlat(k', ds')
    ensures IsFlat(k + k', ds + ds')
  {
    forall i | 0 <= i < |ds + ds'|
      ensures (k + k')[2*i] == Pos((ds + ds')[i].pos) && (k + k')[2*i+1] == Style((ds + ds')[i].style)
    {
      if i >= |ds| {
        var j := i - |ds|;
        assert k'[2*j] == Pos(ds'[j].pos) && k'[2*j+1] == Style(ds'[j].style);
      }
    }
  }

  method FindRule(rules: seq<Rule>, z: Text) returns (style: Text, t: Option<Groups>)
    ensures var m := FirstMatch(rules, z, 0);
            (style, t) == if m.Some? then (m.value.0, Some(m.value.1)) else (PLAIN, None)
  {
    var f := 0;
    style, t := PLAIN, None;
    while f < |rules|
      invariant f <= |rules| && FirstMatch(rules, z, 0) == FirstMatch(rules, z, f)
      invariant style == PLAIN && t == None
    {
      var h := rules[f];
      t := h.match_(z);
      if t.Some? {
        return h.style, t;
      }
      f := f + 1;
    }
  }

  /** The cache holds only styles, and each is the style of its token. */
  ghost predicate CacheOk(lexer: SimpleLexer, cache: map<Text, Text>) {
    forall z :: z in cache ==> z != [] && Classify(lexer, z) == Styled(cache[z])
  }

  lemma NothingCached(reg: Registry, name: Text)
    requires name in reg
    ensures reg[name].Simple? ==> CacheOk(reg[name].lexer, map[])
  {
  }

  /** Looks a token up in the cache, or classifies it and caches a plain style. */
  method ClassifyCached(lexer: SimpleLexer, z: Text, cache: map<Text, Text>)
    returns (c: Class, cache': map<Text, Text>)
    requires z != [] && CacheOk(lexer, cache)
    ensures c == Classify(lexer, z) && CacheOk(lexer, cache')
  {
    cache' := cache;
    if z in cache {
      return Styled(cache[z]), cache;
    }
    var w: Text, t: Option<Groups>;
    var h := lexer.shortcut(z[0]);
    if h.Some? {
      t, w := h.value.match_(z), h.value.style;
    } else {
      w, t := FindRule(lexer.rules, z);
    }
    var embedded := IsLanguage(w);
    if embedded && !(t.Some? && t.value.first.Some?) {
      embedded, w := false, SOURCE;
    }
    if embedded {
      c := Embedded(w[5..], t.value.first.value, t.value.second);
    } else {
      c, cache' := Styled(w), cache'[z := w];
    }
  }

  /** The handler made by `createSimpleLexer`: a loop over the tokens that pushes
      positions and styles, and calls handlers for the parts of embedded tokens.
      It reports what classifying every token anew would report. */
  method DecorateSource(reg: Registry, ghost rank: Text -> nat, name: Text, src: Text, at: nat) returns (k: seq<Cell>)
    requires RegistryOk(reg, rank) && name in reg
    ensures IsFlat(k, Decorate(reg, rank, name, src, at))
    decreases |src|, rank(name), 2, 0
  {
    hide RegistryOk, CacheOk;
    NothingCached(reg, name);
    if reg[name].Custom? {
      k := Flat(reg[name].run(src, at));
      return;
    }
    var lexer := reg[name].lexer;
    var toks := lexer.tokens(src);
    k := [Pos(at), Style(PLAIN)];
    var pos: nat, cache: map<Text, Text> := at, map[];
    ghost var done := [Decoration(at, PLAIN)];
    PushOne(at, PLAIN);
    hide IsFlat, DecorateTokens, DecorateToken;
    for n := 0 to |toks|
      invariant CacheOk(lexer, cache) && IsFlat(k, done)
      invariant Decorate(reg, rank, name, src, at) == done + DecorateTokens(reg, rank, name, lexer, src, n, pos)
    {
      var pushed;
      pushed, cache := DecorateOne(reg, rank, name, lexer, src, n, pos, cache);
      NextToken(reg, rank, name, lexer, src, n, pos, done, Decorate(reg, rank, name, src, at));
      FlatConcat(k, done, pushed, DecorateToken(reg, rank, name, lexer, src, n, pos));
      done := done + DecorateToken(reg, rank, name, lexer, src, n, pos);
      k, pos := k + pushed, pos + |toks[n]|;
    }
    NoMoreTokens(reg, rank, name, lexer, src, pos);
    assert done + [] == done;
  }

  lemma NextToken(reg: Registry, rank: Text -> nat, name: Text, lexer: SimpleLexer, src: Text, n: nat, pos: nat,
                  done: seq<Decoration>, all: seq<Decoration>)
    requires RegistryOk(reg, rank) && name in reg && reg[name] == Simple(lexer)
    requires n < |lexer.tokens(src)| && all == done + DecorateTokens(reg, rank, name, lexer, src, n, pos)
    ensures all == done + DecorateToken(reg, rank, name, lexer, src, n, pos)
                   + DecorateTokens(reg, rank, name, lexer, src, n + 1, pos + |lexer.tokens(src)[n]|)
  {
    hide RegistryOk, DecorateToken;
  }

  lemma NoMoreTokens(reg: Registry, rank: Text -> nat, name: Text, lexer: SimpleLexer, src: Text, pos: nat)
    requires RegistryOk(reg, rank) && name in reg && reg[name] == Simple(lexer)
    ensures DecorateTokens(reg, rank, name, lexer, src, |lexer.tokens(src)|, pos) == []
  {
  }

  /** The list a handler hands back, as the flat list the source keeps. */
  function Flat(ds: seq<Decoration>): (k: seq<Cell>)
    ensures IsFlat(k, ds)
  {
    if ds == [] then []
    else
      var last := ds[|ds|-1];
      FlatConcat(Flat(ds[..|ds|-1]), ds[..|ds|-1], [Pos(last.pos), Style(last.style)], [last]);
      assert ds[..|ds|-1] + [last] == ds;
      Flat(ds[..|ds|-1]) + [Pos(last.pos), Style(last.style)]
  }

  /** What the loop body pushes for one token. */
  method DecorateOne(reg: Registry, ghost rank: Text -> nat, name: Text, lexer: SimpleLexer, src: Text, i: nat, at: nat,
                     cache: map<Text, Text>)
    returns (k: seq<Cell>, cache': map<Text, Text>)
    requires RegistryOk(reg, rank) && name in reg && reg[name] == Simple(lexer)
    requires i < |lexer.tokens(src)| && CacheOk(lexer, cache)
    ensures IsFlat(k, DecorateToken(reg, rank, name, lexer, src, i, at)) && CacheOk(lexer, cache')
    decreases |src|, rank(name), 1, 0
  {
    hide RegistryOk, Classify, GroupsFit, LangFor, CacheOk, Decorate, IsFlat;
    var z := lexer.tokens(src)[i];
    TokenOk(reg, rank, name, lexer, src, i);
    var c;
    c, cache' := ClassifyCached(lexer, z, cache);
    match c
    case Styled(style) =>
      PushOne(at, style);
      k := [Pos(at), Style(style)];
    case Embedded(lang, inner, second) =>
      var l := InnerStart(z, inner, second);
      var r := l + |inner|;
      k := AppendDecorations(reg, rank, name, z[..l], at);
      var k1 := AppendDecorations(reg, rank, LangFor(reg, lang, inner), inner, at + l);
      var k2 := AppendDecorations(reg, rank, name, z[r..], at + r);
      ghost var a := if l == 0 then [] else Decorate(reg, rank, name, z[..l], at);
      ghost var b := if inner == [] then [] else Decorate(reg, rank, LangFor(reg, lang, inner), inner, at + l);
      ghost var d := if r == |z| then [] else Decorate(reg, rank, name, z[r..], at + r);
      assert DecorateToken(reg, rank, name, lexer, src, i, at) == a + b + d;
      FlatConcat(k, a, k1, b);
      FlatConcat(k + k1, a + b, k2, d);
      k := k + k1 + k2;
  }

  lemma PushOne(at: nat, style: Text)
    ensures IsFlat([Pos(at), Style(style)], [Decoration(at, style)])
  {
  }

  /** `appendDecorations`: what the handler of a nonempty text reports. */
  method AppendDecorations(reg: Registry, ghost rank: Text -> nat, name: Text, part: Text, at: nat) returns (k: seq<Cell>)
    requires RegistryOk(reg, rank) && name in reg
    ensures IsFlat(k, if part == [] then [] else Decorate(reg, rank, name, part, at))
    decreases |part|, rank(name), 3, 0
  {
    if part != [] {
      k := DecorateSource(reg, rank, name, part, at);
    } else {
      k := [];
    }
  }
}
