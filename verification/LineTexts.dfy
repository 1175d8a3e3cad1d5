/** The text that the extraction reads off a forest before and after it is cut at a line
    break. The extraction ends a line at every `br` and `li`, whatever their case, and
    the walk that numbers lines only at a `br` in lower case; where these are the same
    elements, the two parts have the text of the one with a newline between them. */
module LineTexts {
  import opened Prelude
  import opened Dom
  import opened LineTrees
  import Extraction = SpanExtraction

  function Raw(ns: seq<Node>, pre: bool): Text { Extraction.Raw(ns, pre) }

  /** Every element that ends a line for the extraction is a `br` in lower case, without
      text in it; for the walk these are all there are. */
  predicate PlainLines(ns: seq<Node>, pre: bool)
    decreases ns, 0
  {
    ns == [] || (PlainLine(ns[0], pre) && PlainLines(ns[1..], pre))
  }

  predicate PlainLine(n: Node, pre: bool)
    decreases n, 1
  {
    n.Element? && !IsNocode(n.cls) ==>
      if Extraction.EndsLine(n.name) then n.name == BR && Raw(n.kids, pre) == [] else PlainLines(n.kids, pre)
  }

  lemma {:induction false} PlainAppend(a: seq<Node>, b: seq<Node>, pre: bool)
    ensures PlainLines(a + b, pre) <==> PlainLines(a, pre) && PlainLines(b, pre)
  {
    hide PlainLine;
    if a == [] {
      assert a + b == b;
    } else {
      assert (a + b)[1..] == a[1..] + b && (a + b)[0] == a[0];
      PlainAppend(a[1..], b, pre);
    }
  }

  lemma PlainOne(n: Node, pre: bool)
    ensures PlainLines([n], pre) <==> PlainLine(n, pre)
  {
    assert [n][1..] == [];
  }

  lemma PlainAround(ns: seq<Node>, k: nat, pre: bool)
    requires k < |ns|
    ensures PlainLines(ns, pre) <==> PlainLines(ns[..k], pre) && PlainLine(ns[k], pre) && PlainLines(ns[k+1..], pre)
  {
    hide PlainLine, PlainLines;
    assert ns == ns[..k] + [ns[k]] + ns[k+1..];
    PlainAppend(ns[..k] + [ns[k]], ns[k+1..], pre);
    PlainAppend(ns[..k], [ns[k]], pre);
    PlainOne(ns[k], pre);
  }

  lemma RawAppend(a: seq<Node>, b: seq<Node>, pre: bool)
    ensures Raw(a + b, pre) == Raw(a, pre) + Raw(b, pre)
  {
    Extraction.ChunksAppend(a, b, pre);
    ConcatAppend(Extraction.Chunks(a, pre), Extraction.Chunks(b, pre));
  }

  lemma RawAround(ns: seq<Node>, k: nat, pre: bool)
    requires k < |ns|
    ensures Raw(ns, pre) == Raw(ns[..k], pre) + Raw([ns[k]], pre) + Raw(ns[k+1..], pre)
  {
    hide Raw;
    assert ns == ns[..k] + [ns[k]] + ns[k+1..];
    RawAppend(ns[..k] + [ns[k]], ns[k+1..], pre);
    RawAppend(ns[..k], [ns[k]], pre);
  }

  /** The text of one node. */
  lemma RawOfOne(n: Node, pre: bool)
    ensures n.Element? ==>
              Raw([n], pre) == if IsNocode(n.cls) then [] else Raw(n.kids, pre) + (if Extraction.EndsLine(n.name) then [NEWLINE] else [])
    ensures n.Chars? ==> Raw([n], pre) == Extraction.Normal(n.value, pre)
    ensures Raw([], pre) == []
  {
    var chunks := Extraction.NodeChunks(n, pre);
    assert [n][1..] == [] && Extraction.Chunks([n], pre) == chunks + [] == chunks;
    if n.Element? && !IsNocode(n.cls) {
      var end: seq<Text> := if Extraction.EndsLine(n.name) then [[NEWLINE]] else [];
      ConcatAppend(Extraction.Chunks(n.kids, pre), end);
      assert Concat(end) == if Extraction.EndsLine(n.name) then [NEWLINE] else [];
    }
    if n.Chars? && n.value != [] {
      assert chunks == [Extraction.Normal(n.value, pre)] && chunks[1..] == [];
      assert Concat(chunks) == chunks[0] + Concat(chunks[1..]);
    }
  }

  // ---- at the break ----

  lemma {:induction false} UnixAroundBreak(v: Text)
    requires HasBreak(v)
    ensures Extraction.UnixBreaks(v)
         == Extraction.UnixBreaks(v[..BreakStart(v)]) + [NEWLINE] + Extraction.UnixBreaks(v[BreakEnd(v)..])
  {
    hide Extraction.UnixBreaks, BreakEnd;
    if BreakStart(v) > 0 {
      UnixAroundBreak(v[1..]);
      LaterBreak(v);
      var front := v[..BreakStart(v)];
      UnixStep(v);
      UnixStep(front);
      assert front[1..] == v[1..][..BreakStart(v[1..])];
    } else {
      UnixBreakHere(v);
    }
  }

  lemma UnixStep(v: Text)
    requires v != [] && v[0] != RETURN
    ensures Extraction.UnixBreaks(v) == [v[0]] + Extraction.UnixBreaks(v[1..])
  {}

  lemma LaterBreak(v: Text)
    requires HasBreak(v) && BreakStart(v) > 0
    ensures HasBreak(v[1..]) && v[1..][BreakEnd(v[1..])..] == v[BreakEnd(v)..]
  {}

  lemma UnixBreakHere(v: Text)
    requires HasBreak(v) && BreakStart(v) == 0
    ensures Extraction.UnixBreaks(v)
         == Extraction.UnixBreaks(v[..0]) + [NEWLINE] + Extraction.UnixBreaks(v[BreakEnd(v)..])
  {
    assert v[..0] == [];
    assert v[BreakEnd(v)..] == if v[0] == RETURN && |v| > 1 && v[1] == NEWLINE then v[2..] else v[1..];
  }

  lemma BreakEndsLine()
    ensures Extraction.EndsLine(BR)
  {
    assert ToLowerAscii(BR) == [98, 114];
  }

  lemma RawAtBreak(n: Node, pre: bool, textId: nat)
    requires Breaks(n, pre) && PlainLine(n, pre)
    ensures Raw([n], pre) == Raw(Before(n), pre) + [NEWLINE] + Raw(After(n, textId), pre)
    ensures PlainLines(Before(n), pre) && PlainLines(After(n, textId), pre)
  {
    hide Raw, Extraction.UnixBreaks, HasBreak, BreakStart, BreakEnd;
    RawOfOne(n, pre);
    BreakEndsLine();
    if n.Chars? {
      UnixAroundBreak(n.value);
      if Before(n) != [] { RawOfOne(Before(n)[0], pre); PlainOne(Before(n)[0], pre); assert Before(n) == [Before(n)[0]]; }
      if After(n, textId) != [] { RawOfOne(After(n, textId)[0], pre); PlainOne(After(n, textId)[0], pre); assert After(n, textId) == [After(n, textId)[0]]; }
      NoText(n, textId);
    }
  }

  lemma NoText(n: Node, textId: nat)
    requires n.Chars? && HasBreak(n.value)
    ensures Before(n) == [] ==> Extraction.UnixBreaks(n.value[..BreakStart(n.value)]) == []
    ensures Before(n) != [] ==> Before(n) == [n.(value := n.value[..BreakStart(n.value)])]
    ensures After(n, textId) == [] ==> Extraction.UnixBreaks(n.value[BreakEnd(n.value)..]) == []
    ensures After(n, textId) != [] ==> After(n, textId) == [Chars(textId, n.value[BreakEnd(n.value)..])]
  {
    hide BreakEnd;
  }

  /** A forest around a cut of its `k`-th node. */
  lemma RawCutHere(ns: seq<Node>, k: nat, before: seq<Node>, after: seq<Node>, pre: bool)
    requires k < |ns| && PlainLines(ns, pre) && PlainLines(before, pre) && PlainLines(after, pre)
    requires Raw([ns[k]], pre) == Raw(before, pre) + [NEWLINE] + Raw(after, pre)
    ensures Raw(ns, pre) == Raw(ns[..k] + before, pre) + [NEWLINE] + Raw(after + ns[k+1..], pre)
    ensures PlainLines(ns[..k] + before, pre) && PlainLines(after + ns[k+1..], pre)
  {
    hide Raw, PlainLines, PlainLine;
    RawAround(ns, k, pre);
    PlainAround(ns, k, pre);
    RawAppend(ns[..k], before, pre);
    RawAppend(after, ns[k+1..], pre);
    PlainAppend(ns[..k], before, pre);
    PlainAppend(after, ns[k+1..], pre);
    Regroup(Raw(ns[..k], pre), Raw(before, pre), Raw(after, pre), Raw(ns[k+1..], pre));
  }

  lemma Regroup(a: Text, b: Text, c: Text, d: Text)
    ensures a + (b + [NEWLINE] + c) + d == (a + b) + [NEWLINE] + (c + d)
  {}

  lemma RawOfEntered(m: Node, kids: seq<Node>, id: nat, pre: bool)
    requires Entered(m) && PlainLine(m, pre)
    ensures PlainLines(m.kids, pre)
    ensures Raw([m.(id := id, kids := kids)], pre) == Raw(kids, pre) && Raw([m], pre) == Raw(m.kids, pre)
    ensures PlainLines([m.(id := id, kids := kids)], pre) <==> PlainLines(kids, pre)
  {
    hide Raw;
    RawOfOne(m, pre);
    RawOfOne(m.(id := id, kids := kids), pre);
    PlainOne(m.(id := id, kids := kids), pre);
    assert Raw(kids, pre) + [] == Raw(kids, pre);
  }

  lemma NothingSaid(pre: bool)
    ensures Raw([], pre) == [] && PlainLines([], pre)
  {}

  /** Cutting at the first break: the texts of both parts, with a newline between them,
      are the text of the forest. */
  lemma {:induction false} CutKeepsRaw(ns: seq<Node>, pre: bool, p: seq<nat>, unused: nat, textId: nat)
    requires FirstBreak(ns, pre, 0) == Some(p) && PlainLines(ns, pre)
    ensures Breaks(At(ns, p), pre)
    ensures var l, r := LeftPart(ns, p, Before(At(ns, p))), RightPart(ns, p, After(At(ns, p), textId), unused);
            && Raw(ns, pre) == Raw(l, pre) + [NEWLINE] + Raw(r, pre)
            && PlainLines(l, pre) && PlainLines(r, pre)
    decreases |p|
  {
    hide Raw, PlainLine, PlainLines, Entered, FirstBreak, Before, HasBreak;
    NoBreakBefore(ns, pre, 0, p, []);
    var k, m := p[0], ns[p[0]];
    PlainAround(ns, k, pre);
    if |p| == 1 {
      FoundHere(m, pre);
      RawAtBreak(m, pre, textId);
      RawCutHere(ns, k, Before(m), After(m, textId), pre);
    } else {
      FoundBelow(m, pre, p[1..]);
      RawOfEntered(m, m.kids, m.id, pre);
      CutKeepsRaw(m.kids, pre, p[1..], unused + 1, textId);
      var n := At(ns, p);
      var l, r := LeftPart(m.kids, p[1..], Before(n)), RightPart(m.kids, p[1..], After(n, textId), unused + 1);
      RawOfEntered(m, l, m.id, pre);
      RawOfEntered(m, r, unused, pre);
      NothingSaid(pre);
      assert m.(kids := l) == m.(id := m.id, kids := l);
      RawCutHere(ns, k, [m.(kids := l)], if r == [] then [] else [m.(id := unused, kids := r)], pre);
    }
  }

  lemma FoundHere(m: Node, pre: bool)
    requires FirstBreakIn(m, pre) == Some([])
    ensures Breaks(m, pre)
  {}

  lemma FoundBelow(m: Node, pre: bool, p: seq<nat>)
    requires FirstBreakIn(m, pre) == Some(p) && p != []
    ensures Entered(m) && FirstBreak(m.kids, pre, 0) == Some(p)
  {}
}
