/** Highlighting does not alter the text: extracting again gives what was
    extracted before, up to the one final newline the extraction drops. */
module TextPreservation {
  import opened Prelude
  import opened Dom
  import opened SpanExtraction
  import opened Decorations
  import opened Recombination
  import opened Highlighting

  // ---- normalising normalised text ----

  /** Text that normalising leaves alone. */
  predicate Stable(t: Text, pre: bool) {
    if pre then forall i :: 0 <= i < |t| ==> t[i] != RETURN
    else && (forall i :: 0 <= i < |t| ==> (IsBlank(t[i]) ==> t[i] == SPACE))
         && (forall i :: 0 <= i < |t| - 1 ==> t[i] != SPACE || t[i+1] != SPACE)
  }

  lemma {:induction false} UnixBreaksIsStable(v: Text)
    ensures Stable(UnixBreaks(v), true)
    decreases |v|
  {
    if v != [] {
      UnixBreaksIsStable(v[1..]);
      if |v| > 1 { UnixBreaksIsStable(v[2..]); }
    }
  }

  lemma {:induction false} CollapseIsStable(v: Text, inRun: bool)
    ensures Stable(Collapse(v, inRun), false)
    ensures inRun && Collapse(v, inRun) != [] ==> Collapse(v, inRun)[0] != SPACE
  {
    if v != [] {
      CollapseIsStable(v[1..], IsBlank(v[0]));
    }
  }

  lemma NormalIsStable(v: Text, pre: bool)
    ensures Stable(Normal(v, pre), pre)
  {
    if pre { UnixBreaksIsStable(v); } else { CollapseIsStable(v, false); }
  }

  lemma {:induction false} StableUnixBreaks(t: Text)
    requires Stable(t, true)
    ensures UnixBreaks(t) == t
  {
    if t != [] { StableUnixBreaks(t[1..]); }
  }

  lemma {:induction false} StableCollapse(t: Text, inRun: bool)
    requires Stable(t, false) && (inRun && t != [] ==> t[0] != SPACE)
    ensures Collapse(t, inRun) == t
  {
    if t != [] { StableCollapse(t[1..], IsBlank(t[0])); }
  }

  lemma StableNormal(t: Text, pre: bool)
    requires Stable(t, pre)
    ensures Normal(t, pre) == t
  {
    if pre { StableUnixBreaks(t); } else { StableCollapse(t, false); }
  }

  // ---- the text of the pieces ----

  function Unpaint(p: seq<(CodeUnit, Text)>): (t: Text)
    ensures |t| == |p|
  {
    seq(|p|, i requires 0 <= i < |p| => p[i].0)
  }

  predicate Visible(p: seq<(CodeUnit, Text)>) { forall i :: 0 <= i < |p| ==> !IsNocode(p[i].1) }

  lemma RawAppend(a: seq<Node>, b: seq<Node>, pre: bool)
    ensures Raw(a + b, pre) == Raw(a, pre) + Raw(b, pre)
  {
    ChunksAppend(a, b, pre);
    ConcatAppend(Chunks(a, pre), Chunks(b, pre));
  }

  lemma RawOfOne(n: Node, pre: bool)
    ensures Raw([n], pre) == Concat(NodeChunks(n, pre))
  {
    assert [n][1..] == [] && Chunks([n][1..], pre) == [];
    assert NodeChunks(n, pre) + [] == NodeChunks(n, pre);
    assert Chunks([n], pre) == NodeChunks(n, pre);
  }

  lemma RawOfText(id: nat, value: Text, pre: bool)
    ensures Raw([Chars(id, value)], pre) == Normal(value, pre)
  {
    RawOfOne(Chars(id, value), pre);
    ConcatSnoc([], Normal(value, pre));
  }

  lemma RawOfPiece(n: Node, pre: bool)
    requires IsPiece(n) && Stable(n.kids[0].value, pre)
    ensures Raw([n], pre) == if IsNocode(n.cls) then [] else n.kids[0].value
  {
    hide IsNocode, Normal;
    RawOfOne(n, pre);
    var c := n.kids[0];
    assert n.kids == [c];
    RawOfText(c.id, c.value, pre);
    StableNormal(c.value, pre);
    assert !EndsLine(SPAN_NAME) by { assert |ToLowerAscii(SPAN_NAME)| == 4; }
    assert !IsNocode(n.cls) ==> NodeChunks(n, pre) == Chunks(n.kids, pre);
  }

  /** Pieces give their text, unless the class of one hides it. */
  lemma {:induction false} RawOfPieces(pieces: seq<Node>, pre: bool)
    requires ArePieces(pieces) && Stable(Unpaint(Painted(pieces)), pre)
    ensures if Visible(Painted(pieces)) then Raw(pieces, pre) == Unpaint(Painted(pieces))
            else |Raw(pieces, pre)| < |Painted(pieces)|
  {
    hide Raw, IsNocode, Stable, Paint;
    if pieces == [] {
      RawOfNone(pre);
    } else {
      var front, last := pieces[..|pieces|-1], pieces[|pieces|-1];
      assert pieces == front + [last] && IsPiece(last);
      var p, q := Painted(front), Paint(last.kids[0].value, last.cls);
      assert Painted(pieces) == p + q;
      var a, b := Unpaint(p), last.kids[0].value;
      UnpaintParts(p, b, last.cls);
      assert [] + a + b == a + b && a + b + [] == a + b;
      StablePart([], a, b, pre);
      StablePart(a, b, [], pre);
      VisibleParts(p, last.kids[0].value, last.cls);
      RawOfPieces(front, pre);
      RawOfPiece(last, pre);
      RawAppend(front, [last], pre);
    }
  }

  lemma RawOfNone(pre: bool)
    ensures Raw([], pre) == []
  {}

  lemma UnpaintParts(p: seq<(CodeUnit, Text)>, t: Text, style: Text)
    ensures Unpaint(p + Paint(t, style)) == Unpaint(p) + t
  {}

  lemma VisibleParts(p: seq<(CodeUnit, Text)>, t: Text, style: Text)
    requires t != []
    ensures Visible(p + Paint(t, style)) <==> Visible(p) && !IsNocode(style)
  {
    var q := Paint(t, style);
    assert forall i :: 0 <= i < |p| ==> (p + q)[i] == p[i];
    assert (p + q)[|p|] == q[0];
  }

  lemma StablePart(a: Text, b: Text, c: Text, pre: bool)
    requires Stable(a + b + c, pre)
    ensures Stable(b, pre)
  {
    assert forall i :: 0 <= i < |b| ==> (a + b + c)[|a| + i] == b[i];
  }

  /** Some character of the range has a style that hides it. */
  predicate Hides(input: Input, from: nat, to: nat) {
    exists p :: from <= p < to && IsNocode(InForce(input.ds, p))
  }

  /** A cut text node still has the text of its range, unless a style hides some of it. */
  lemma RawOfCut(list: seq<Node>, input: Input, from: nat, to: nat, id: nat, pre: bool)
    requires from <= to <= |input.src| && IsCut(list, input.src, input.ds, from, to, id, [])
    requires Stable(input.src[from..to], pre)
    ensures if Hides(input, from, to) then |Raw(list, pre)| < to - from else Raw(list, pre) == input.src[from..to]
  {
    var pieces, last := list[..|list|-1], list[|list|-1];
    var styled := Styled(input.src, input.ds, from, to);
    assert list == pieces + [last];
    assert Unpaint(styled) == input.src[from..to];
    if Hides(input, from, to) {
      var p :| from <= p < to && IsNocode(InForce(input.ds, p));
      assert IsNocode(styled[p - from].1);
    }
    RawOfPieces(pieces, pre);
    RawOfText(id, [], pre);
    RawAppend(pieces, [last], pre);
  }

  // ---- the text of the rebuilt document ----

  /** The text of a forest after highlighting, if nothing is hidden: a text node that
      is cut has its range of the source. */
  function TextAfter(ns: seq<Node>, input: Input, pre: bool, at: nat): Text
    decreases ns, 0
  {
    if ns == [] then []
    else NodeTextAfter(ns[0], input, pre, at) + TextAfter(ns[1..], input, pre, at + Length(ns[0], pre))
  }

  function NodeTextAfter(n: Node, input: Input, pre: bool, at: nat): Text
    decreases n, 1
  {
    match n
    case Element(_, name, cls, kids) =>
      if IsNocode(cls) then [] else TextAfter(kids, input, pre, at) + (if EndsLine(name) then [NEWLINE] else [])
    case Chars(_, value) =>
      var end := ChunkEnd(input, at, |Normal(value, pre)|);
      if value != [] && at < end then input.src[at..end] else Normal(value, pre)
    case Other(_) => []
  }

  /** A style hides some character of a text node that is cut. */
  predicate HidesText(ns: seq<Node>, input: Input, pre: bool, at: nat)
    decreases ns, 0
  {
    ns != []
    && (NodeHidesText(ns[0], input, pre, at) || HidesText(ns[1..], input, pre, at + Length(ns[0], pre)))
  }

  predicate NodeHidesText(n: Node, input: Input, pre: bool, at: nat)
    decreases n, 1
  {
    match n
    case Element(_, _, cls, kids) => !IsNocode(cls) && HidesText(kids, input, pre, at)
    case Chars(_, value) => value != [] && Hides(input, at, ChunkEnd(input, at, |Normal(value, pre)|))
    case Other(_) => false
  }

  /** The same, said of the styles the languages give the characters of the source. */
  predicate StylesHide(ns: seq<Node>, styles: seq<Option<Text>>, pre: bool, at: nat)
    decreases ns, 0
  {
    ns != []
    && (NodeStylesHide(ns[0], styles, pre, at) || StylesHide(ns[1..], styles, pre, at + Length(ns[0], pre)))
  }

  predicate NodeStylesHide(n: Node, styles: seq<Option<Text>>, pre: bool, at: nat)
    decreases n, 1
  {
    match n
    case Element(_, _, cls, kids) => !IsNocode(cls) && StylesHide(kids, styles, pre, at)
    case Chars(_, value) =>
      value != [] && exists p :: at <= p < Min(at + |Normal(value, pre)|, |styles|) && HiddenBy(styles[p])
    case Other(_) => false
  }

  predicate HiddenBy(style: Option<Text>) { style.Some? && IsNocode(style.value) }

  /** The styles in force hide what the given styles hide. */
  lemma {:induction false} SameStylesHide(ns: seq<Node>, styles: seq<Option<Text>>, input: Input, pre: bool, at: nat)
    requires |styles| == |input.src| && forall p :: 0 <= p < |styles| ==> styles[p] == Some(InForce(input.ds, p))
    ensures HidesText(ns, input, pre, at) <==> StylesHide(ns, styles, pre, at)
    decreases ns
  {
    hide Normal, IsNocode;
    if ns != [] {
      SameStylesHide(ns[1..], styles, input, pre, at + Length(ns[0], pre));
      match ns[0]
      case Element(_, _, _, kids) => SameStylesHide(kids, styles, input, pre, at);
      case Chars(_, value) => SameHidden(styles, input, at, ChunkEnd(input, at, |Normal(value, pre)|));
      case Other(_) =>
    }
  }

  lemma SameHidden(styles: seq<Option<Text>>, input: Input, from: nat, to: nat)
    requires to <= |styles| == |input.src| && forall p :: 0 <= p < |styles| ==> styles[p] == Some(InForce(input.ds, p))
    ensures Hides(input, from, to) <==> exists p :: from <= p < to && HiddenBy(styles[p])
  {
    hide IsNocode;
    if Hides(input, from, to) {
      var p :| from <= p < to && IsNocode(InForce(input.ds, p));
      assert HiddenBy(styles[p]);
    }
  }

  /** A caller whose styles do not have the class `nocode` need not fear for the text. */
  lemma {:induction false} VisibleHidesNothing(ns: seq<Node>, styles: seq<Option<Text>>, pre: bool, at: nat)
    requires forall p :: 0 <= p < |styles| ==> !HiddenBy(styles[p])
    ensures !StylesHide(ns, styles, pre, at)
    decreases ns
  {
    hide Normal, IsNocode;
    if ns != [] {
      VisibleHidesNothing(ns[1..], styles, pre, at + Length(ns[0], pre));
      if ns[0].Element? { VisibleHidesNothing(ns[0].kids, styles, pre, at); }
    }
  }

  /** `full` is the text of the whole document and `src` the source: the same, or
      without the final newline. */
  predicate IsSourceOf(src: Text, full: Text) { full == src || full == src + [NEWLINE] }

  predicate StandsAt(t: Text, full: Text, at: nat) { at + |t| <= |full| && full[at..at+|t|] == t }

  lemma OccursSplit(a: Text, b: Text, full: Text, at: nat)
    requires StandsAt(a + b, full, at)
    ensures StandsAt(a, full, at) && StandsAt(b, full, at + |a|) && at + |a| + |b| <= |full|
  {
    assert full[at..at+|a|] == (a + b)[..|a|];
    assert full[at+|a|..at+|a|+|b|] == (a + b)[|a|..];
  }

  /** The text `t` at `at` is kept, or it ends the document and lost the final newline. */
  predicate KeptAs(t: Text, t': Text, src: Text, full: Text, at: nat) {
    t' == t || (at + |t| == |full| > |src| && t != [] && t' == t[..|t|-1])
  }

  lemma KeptConcat(a: Text, a': Text, b: Text, b': Text, src: Text, full: Text, at: nat)
    requires KeptAs(a, a', src, full, at) && KeptAs(b, b', src, full, at + |a|) && at + |a| + |b| <= |full|
    ensures KeptAs(a + b, a' + b', src, full, at)
  {
    if b' != b {
      assert (a + b)[..|a + b|-1] == a + b[..|b|-1];
    } else if a' != a {
      assert b == [] && a + b == a && a' + b == a';
    }
  }

  /** A chunk is the source's text at its place, but for the dropped newline. */
  lemma ChunkOfSource(src: Text, full: Text, at: nat, chunk: Text)
    requires IsSourceOf(src, full) && StandsAt(chunk, full, at)
    requires at < Min(at + |chunk|, |src|)
    ensures var t := src[at..Min(at + |chunk|, |src|)];
            KeptAs(chunk, t, src, full, at) && t == chunk[..|t|]
  {
    if full == src {
      assert src[at..at+|chunk|] == chunk == chunk[..|chunk|];
    } else if at + |chunk| <= |src| {
      assert src[at..at+|chunk|] == full[at..at+|chunk|] == chunk[..|chunk|];
    } else {
      assert src[at..] == full[at..|src|] == chunk[..|chunk|-1];
    }
  }

  /** What is left after highlighting is the text itself, or the text without the
      final newline. */
  lemma {:induction false} TextAfterKept(ns: seq<Node>, input: Input, pre: bool, at: nat, full: Text)
    requires IsSourceOf(input.src, full) && StandsAt(Raw(ns, pre), full, at)
    ensures KeptAs(Raw(ns, pre), TextAfter(ns, input, pre, at), input.src, full, at)
    decreases ns, 1
  {
    if ns != [] {
      hide Raw, KeptAs, NodeTextAfter, NodeChunks, IsSourceOf, StandsAt;
      var n, rest := ns[0], ns[1..];
      assert ns == [n] + rest;
      RawAppend([n], rest, pre);
      RawOfOne(n, pre);
      var a, b := Raw([n], pre), Raw(rest, pre);
      OccursSplit(a, b, full, at);
      NodeTextAfterKept(n, input, pre, at, full);
      TextAfterKept(rest, input, pre, at + |a|, full);
      KeptConcat(a, NodeTextAfter(n, input, pre, at), b, TextAfter(rest, input, pre, at + |a|), input.src, full, at);
    }
  }

  lemma {:induction false} NodeTextAfterKept(n: Node, input: Input, pre: bool, at: nat, full: Text)
    requires IsSourceOf(input.src, full) && StandsAt(Raw([n], pre), full, at)
    ensures KeptAs(Raw([n], pre), NodeTextAfter(n, input, pre, at), input.src, full, at)
    decreases n, 0
  {
    hide Raw, KeptAs, NodeChunks, IsSourceOf, StandsAt, EndsLine, IsNocode, Normal;
    if n.Element? && !IsNocode(n.cls) {
      var t, line := Raw(n.kids, pre), if EndsLine(n.name) then [NEWLINE] else [];
      RawOfElement(n, pre);
      OccursSplit(t, line, full, at);
      TextAfterKept(n.kids, input, pre, at, full);
      NothingLost(line, input.src, full, at + |t|);
      KeptConcat(t, TextAfter(n.kids, input, pre, at), line, line, input.src, full, at);
    } else if n.Chars? {
      RawOfText(n.id, n.value, pre);
      NothingLost(Normal(n.value, pre), input.src, full, at);
      if n.value != [] && at < ChunkEnd(input, at, |Normal(n.value, pre)|) {
        ChunkOfSource(input.src, full, at, Normal(n.value, pre));
      }
    } else {
      RawOfNothing(n, pre);
      NothingLost([], input.src, full, at);
    }
  }

  lemma RawOfNothing(n: Node, pre: bool)
    requires n.Other? || (n.Element? && IsNocode(n.cls))
    ensures Raw([n], pre) == []
  {
    RawOfOne(n, pre);
  }

  lemma NothingLost(t: Text, src: Text, full: Text, at: nat)
    ensures KeptAs(t, t, src, full, at)
  {
  }

  lemma RawOfElement(n: Node, pre: bool)
    requires n.Element? && !IsNocode(n.cls)
    ensures Raw([n], pre) == Raw(n.kids, pre) + (if EndsLine(n.name) then [NEWLINE] else [])
  {
    RawOfOne(n, pre);
    ConcatSnoc(Chunks(n.kids, pre), [NEWLINE]);
    assert Chunks(n.kids, pre) + [] == Chunks(n.kids, pre) && Raw(n.kids, pre) + [] == Raw(n.kids, pre);
  }

  /** A new text is the expected one, unless something is hidden: then it is shorter. */
  predicate Comes(hides: bool, t: Text, expected: Text) {
    if hides then |t| < |expected| else t == expected
  }

  /** The text of the rebuilt document is the expected one if no style hides any of
      it, and shorter otherwise. */
  lemma {:induction false} TextOfRebuilt(ns: seq<Node>, repl: map<nat, seq<Node>>, input: Input, pre: bool, at: nat, full: Text)
    requires Rebuilt(ns, repl, input, pre, at, true) && IsSourceOf(input.src, full) && StandsAt(Raw(ns, pre), full, at)
    ensures Comes(HidesText(ns, input, pre, at), Raw(Rebuild(ns, repl), pre), TextAfter(ns, input, pre, at))
    decreases ns, 1
  {
    hide *;
    if ns == [] {
      NothingComes(ns, repl, input, pre, at);
    } else {
      var n, rest, next := ns[0], ns[1..], at + |Raw([ns[0]], pre)|;
      Heads(ns, repl, input, pre, at);
      assert ns == [n] + rest;
      RawAppend([n], rest, pre);
      RebuildHead(ns, repl);
      RawAppend(Rebuild([n], repl), Rebuild(rest, repl), pre);
      OccursSplit(Raw([n], pre), Raw(rest, pre), full, at);
      NodeTextOfRebuilt(n, repl, input, pre, at, full);
      TextOfRebuilt(rest, repl, input, pre, next, full);
      ComesConcat(NodeHidesText(n, input, pre, at), Raw(Rebuild([n], repl), pre), NodeTextAfter(n, input, pre, at),
                  HidesText(rest, input, pre, next), Raw(Rebuild(rest, repl), pre), TextAfter(rest, input, pre, next));
    }
  }

  lemma NothingComes(ns: seq<Node>, repl: map<nat, seq<Node>>, input: Input, pre: bool, at: nat)
    requires ns == []
    ensures Comes(HidesText(ns, input, pre, at), Raw(Rebuild(ns, repl), pre), TextAfter(ns, input, pre, at))
  {}

  /** What the recursions over a forest say of its head and its rest. */
  lemma Heads(ns: seq<Node>, repl: map<nat, seq<Node>>, input: Input, pre: bool, at: nat)
    requires ns != [] && Rebuilt(ns, repl, input, pre, at, true)
    ensures var n, rest, next := ns[0], ns[1..], at + |Raw([ns[0]], pre)|;
            && NodeRebuilt(n, repl, input, pre, at, true) && Rebuilt(rest, repl, input, pre, next, true)
            && HidesText(ns, input, pre, at) == (NodeHidesText(n, input, pre, at) || HidesText(rest, input, pre, next))
            && TextAfter(ns, input, pre, at) == NodeTextAfter(n, input, pre, at) + TextAfter(rest, input, pre, next)
  {
    hide NodeRebuilt, NodeHidesText, NodeTextAfter, NodeChunks;
    RawOfOne(ns[0], pre);
  }

  lemma ComesConcat(h: bool, t: Text, e: Text, h': bool, t': Text, e': Text)
    requires Comes(h, t, e) && Comes(h', t', e')
    ensures Comes(h || h', t + t', e + e')
  {}

  lemma {:induction false} NodeTextOfRebuilt(n: Node, repl: map<nat, seq<Node>>, input: Input, pre: bool, at: nat, full: Text)
    requires NodeRebuilt(n, repl, input, pre, at, true) && IsSourceOf(input.src, full) && StandsAt(Raw([n], pre), full, at)
    ensures Comes(NodeHidesText(n, input, pre, at), Raw(Rebuild([n], repl), pre), NodeTextAfter(n, input, pre, at))
    decreases n, 0
  {
    hide Raw, Rebuild, NodeChunks, IsSourceOf, StandsAt, EndsLine, IsNocode, Normal, Hides;
    RebuildOne(n, repl);
    if n.Element? && !IsNocode(n.cls) {
      var n' := n.(kids := Rebuild(n.kids, repl));
      RawOfElement(n, pre);
      RawOfElement(n', pre);
      OccursSplit(Raw(n.kids, pre), if EndsLine(n.name) then [NEWLINE] else [], full, at);
      TextOfRebuilt(n.kids, repl, input, pre, at, full);
    } else if n.Chars? {
      RawOfText(n.id, n.value, pre);
      TextKept(n, repl, input, pre, at, full);
    } else if n.Element? {
      RawOfNothing(n.(kids := Rebuild(n.kids, repl)), pre);
    } else {
      RawOfNothing(n, pre);
    }
  }

  /** One text node. */
  lemma TextKept(n: Node, repl: map<nat, seq<Node>>, input: Input, pre: bool, at: nat, full: Text)
    requires n.Chars? && NodeRebuilt(n, repl, input, pre, at, true)
    requires IsSourceOf(input.src, full) && StandsAt(Normal(n.value, pre), full, at)
    ensures Comes(NodeHidesText(n, input, pre, at), Raw(Replacement(repl, n), pre), NodeTextAfter(n, input, pre, at))
  {
    hide Raw, Normal, Stable, IsSourceOf, IsNocode;
    var chunk := Normal(n.value, pre);
    var end := ChunkEnd(input, at, |chunk|);
    if n.value != [] && at < end {
      ChunkOfSource(input.src, full, at, chunk);
      NormalIsStable(n.value, pre);
      assert [] + chunk[..end-at] + chunk[end-at..] == chunk;
      StablePart([], chunk[..end-at], chunk[end-at..], pre);
      RawOfCut(repl[n.id], input, at, end, repl[n.id][|repl[n.id]|-1].id, pre);
    } else {
      RawOfText(n.id, n.value, pre);
    }
  }
}
