/** What the recombined document says: every character of the source under an
    element with its style, nothing else changed, and the same text as before. */
module Highlighting {
  import opened Prelude
  import opened Dom
  import opened SpanExtraction
  import opened Decorations
  import opened Recombination

  /** A character with the elements around it, outermost first. */
  datatype Glyph = Glyph(unit: CodeUnit, chain: seq<Tag>)

  function Plain(t: Text, chain: seq<Tag>): (gs: seq<Glyph>)
    ensures |gs| == |t|
  {
    seq(|t|, i requires 0 <= i < |t| => Glyph(t[i], chain))
  }

  /** The characters of a document. */
  function Glyphs(ns: seq<Node>, chain: seq<Tag>): seq<Glyph>
    decreases ns, 0
  {
    if ns == [] then [] else NodeGlyphs(ns[0], chain) + Glyphs(ns[1..], chain)
  }

  function NodeGlyphs(n: Node, chain: seq<Tag>): seq<Glyph>
    decreases n, 1
  {
    match n
    case Element(_, name, cls, kids) => Glyphs(kids, chain + [Tag(name, cls)])
    case Chars(_, value) => Plain(value, chain)
    case Other(_) => []
  }

  // ---- what is expected of the highlighted document ----

  /** The source characters of a range, each in a `span` with its style. */
  function Highlighted(input: Input, from: nat, to: nat, chain: seq<Tag>): (gs: seq<Glyph>)
    requires from <= to <= |input.src|
    ensures |gs| == to - from
  {
    seq(to - from, i requires 0 <= i < to - from =>
      Glyph(input.src[from+i], chain + [Tag(SPAN_NAME, InForce(input.ds, from + i))]))
  }

  function Length(n: Node, pre: bool): nat { |Concat(NodeChunks(n, pre))| }

  /** The end of a chunk in the source, which may lack its final newline. */
  function ChunkEnd(input: Input, at: nat, length: nat): nat { Min(at + length, |input.src|) }

  /** The characters of the highlighted document. `live` is false under `nocode`,
      and `at` is where the forest's text starts in the source. */
  function Expected(ns: seq<Node>, chain: seq<Tag>, input: Input, pre: bool, at: nat, live: bool): seq<Glyph>
    decreases ns, 0
  {
    if ns == [] then []
    else NodeExpected(ns[0], chain, input, pre, at, live)
         + Expected(ns[1..], chain, input, pre, if live then at + Length(ns[0], pre) else at, live)
  }

  function NodeExpected(n: Node, chain: seq<Tag>, input: Input, pre: bool, at: nat, live: bool): seq<Glyph>
    decreases n, 1
  {
    match n
    case Element(_, name, cls, kids) =>
      Expected(kids, chain + [Tag(name, cls)], input, pre, at, live && !IsNocode(cls))
    case Chars(_, value) =>
      var end := ChunkEnd(input, at, |Normal(value, pre)|);
      if live && value != [] && at < end then Highlighted(input, at, end, chain) else Plain(value, chain)
    case Other(_) => []
  }

  // ---- what the lists must hold for that ----

  predicate ChunkDone(repl: map<nat, seq<Node>>, input: Input, id: nat, at: nat, length: nat) {
    var end := ChunkEnd(input, at, length);
    if at < end then
      && id in repl && repl[id] != []
      && IsCut(repl[id], input.src, input.ds, at, end, repl[id][|repl[id]|-1].id, [])
    else id !in repl
  }

  predicate Rebuilt(ns: seq<Node>, repl: map<nat, seq<Node>>, input: Input, pre: bool, at: nat, live: bool)
    decreases ns, 0
  {
    ns == [] ||
    (NodeRebuilt(ns[0], repl, input, pre, at, live)
     && Rebuilt(ns[1..], repl, input, pre, if live then at + Length(ns[0], pre) else at, live))
  }

  predicate NodeRebuilt(n: Node, repl: map<nat, seq<Node>>, input: Input, pre: bool, at: nat, live: bool)
    decreases n, 1
  {
    match n
    case Element(_, _, cls, kids) => Rebuilt(kids, repl, input, pre, at, live && !IsNocode(cls))
    case Chars(id, value) =>
      if live && value != [] then ChunkDone(repl, input, id, at, |Normal(value, pre)|) else id !in repl
    case Other(_) => true
  }

  // ---- the characters of the rebuilt document ----

  lemma {:induction false} GlyphsAppend(a: seq<Node>, b: seq<Node>, chain: seq<Tag>)
    ensures Glyphs(a + b, chain) == Glyphs(a, chain) + Glyphs(b, chain)
  {
    if a == [] {
      assert a + b == b;
    } else {
      assert (a + b)[1..] == a[1..] + b && (a + b)[0] == a[0];
      GlyphsAppend(a[1..], b, chain);
      hide NodeGlyphs;
    }
  }

  lemma GlyphsOfOne(n: Node, chain: seq<Tag>)
    ensures Glyphs([n], chain) == NodeGlyphs(n, chain)
  {
    assert [n][1..] == [];
  }

  function Classed(p: seq<(CodeUnit, Text)>, chain: seq<Tag>): (gs: seq<Glyph>)
    ensures |gs| == |p|
  {
    seq(|p|, i requires 0 <= i < |p| => Glyph(p[i].0, chain + [Tag(SPAN_NAME, p[i].1)]))
  }

  lemma {:induction false} GlyphsOfPieces(pieces: seq<Node>, chain: seq<Tag>)
    requires ArePieces(pieces)
    ensures Glyphs(pieces, chain) == Classed(Painted(pieces), chain)
  {
    if pieces != [] {
      var front, last := pieces[..|pieces|-1], pieces[|pieces|-1];
      assert pieces == front + [last] && IsPiece(last);
      GlyphsOfPieces(front, chain);
      GlyphsAppend(front, [last], chain);
      GlyphsOfOne(last, chain);
      var inner := chain + [Tag(last.name, last.cls)];
      assert last.kids == [last.kids[0]];
      GlyphsOfOne(last.kids[0], inner);
      assert Classed(Paint(last.kids[0].value, last.cls), chain) == Plain(last.kids[0].value, inner);
    }
  }

  lemma GlyphsOfCut(list: seq<Node>, input: Input, from: nat, to: nat, id: nat, chain: seq<Tag>)
    requires from <= to <= |input.src| && IsCut(list, input.src, input.ds, from, to, id, [])
    ensures Glyphs(list, chain) == Highlighted(input, from, to, chain)
  {
    var pieces, last := list[..|list|-1], list[|list|-1];
    assert list == pieces + [last];
    GlyphsAppend(pieces, [last], chain);
    GlyphsOfOne(last, chain);
    GlyphsOfPieces(pieces, chain);
    assert Classed(Styled(input.src, input.ds, from, to), chain) == Highlighted(input, from, to, chain);
  }

  /** The rebuilt document has exactly the expected characters. */
  lemma {:induction false} GlyphsOfRebuilt(ns: seq<Node>, repl: map<nat, seq<Node>>, chain: seq<Tag>,
                                           input: Input, pre: bool, at: nat, live: bool)
    requires Rebuilt(ns, repl, input, pre, at, live)
    ensures Glyphs(Rebuild(ns, repl), chain) == Expected(ns, chain, input, pre, at, live)
    decreases ns
  {
    hide Normal, IsNocode, Highlighted, Length;
    if ns != [] {
      var n := ns[0];
      GlyphsOfRebuilt(ns[1..], repl, chain, input, pre, if live then at + Length(n, pre) else at, live);
      RebuildHead(ns, repl);
      GlyphsAppend(Rebuild([n], repl), Rebuild(ns[1..], repl), chain);
      RebuildOne(n, repl);
      match n
      case Element(_, name, cls, kids) =>
        GlyphsOfRebuilt(kids, repl, chain + [Tag(name, cls)], input, pre, at, live && !IsNocode(cls));
        GlyphsOfOne(n.(kids := Rebuild(kids, repl)), chain);
      case Chars(id, value) =>
        var end := ChunkEnd(input, at, |Normal(value, pre)|);
        if live && value != [] && at < end {
          GlyphsOfCut(repl[id], input, at, end, repl[id][|repl[id]|-1].id, chain);
        } else {
          GlyphsOfOne(n, chain);
        }
      case Other(_) =>
        GlyphsOfOne(n, chain);
    }
  }

  lemma RebuildOne(n: Node, repl: map<nat, seq<Node>>)
    ensures n.Element? ==> Rebuild([n], repl) == [n.(kids := Rebuild(n.kids, repl))]
    ensures n.Chars? ==> Rebuild([n], repl) == Replacement(repl, n)
    ensures n.Other? ==> Rebuild([n], repl) == [n]
  {
    assert [n][1..] == [];
  }

  // ---- from the loop's result to the rebuilt document ----

  /** Every text node among the spans is done. */
  predicate AllDone(repl: map<nat, seq<Node>>, input: Input, nodes: seq<(nat, bool)>, chunks: seq<Text>, at: nat)
    requires |nodes| == |chunks|
  {
    nodes == [] ||
    ((nodes[0].1 || ChunkDone(repl, input, nodes[0].0, at, |chunks[0]|))
     && AllDone(repl, input, nodes[1..], chunks[1..], at + |chunks[0]|))
  }

  lemma {:induction false} AllDoneSplit(repl: map<nat, seq<Node>>, input: Input, n1: seq<(nat, bool)>, c1: seq<Text>,
                                        n2: seq<(nat, bool)>, c2: seq<Text>, at: nat)
    requires |n1| == |c1| && |n2| == |c2| && AllDone(repl, input, n1 + n2, c1 + c2, at)
    ensures AllDone(repl, input, n1, c1, at) && AllDone(repl, input, n2, c2, at + |Concat(c1)|)
  {
    if n1 == [] {
      assert n1 + n2 == n2 && c1 + c2 == c2;
    } else {
      assert (n1 + n2)[1..] == n1[1..] + n2 && (c1 + c2)[1..] == c1[1..] + c2;
      assert (n1 + n2)[0] == n1[0] && (c1 + c2)[0] == c1[0];
      AllDoneSplit(repl, input, n1[1..], c1[1..], n2, c2, at + |c1[0]|);
      hide ChunkDone;
    }
  }

  lemma {:induction false} AllDoneFromDone(repl: map<nat, seq<Node>>, input: Input, nodes: seq<(nat, bool)>, chunks: seq<Text>, k: nat)
    requires input.Valid() && |nodes| == |chunks| == |input.spans| && k <= |nodes|
    requires input.spans == PlacedSpans(nodes, chunks, 0)
    requires |input.src| <= |Concat(chunks)|
    requires forall q :: 0 <= q < |nodes| ==> input.Done(repl, q)
    ensures AllDone(repl, input, nodes[k..], chunks[k..], |Concat(chunks[..k])|)
    decreases |nodes| - k
  {
    if k < |nodes| {
      AllDoneFromDone(repl, input, nodes, chunks, k + 1);
      PlaceStarts(nodes, chunks, 0, k);
      ConcatSnoc(chunks[..k], chunks[k]);
      assert chunks[..k+1] == chunks[..k] + [chunks[k]];
      assert nodes[k..][1..] == nodes[k+1..] && chunks[k..][1..] == chunks[k+1..];
      if k + 1 < |nodes| {
        PlaceStarts(nodes, chunks, 0, k + 1);
      } else {
        assert chunks[..k+1] == chunks;
      }
      assert input.EndOf(k) == ChunkEnd(input, |Concat(chunks[..k])|, |chunks[k]|);
      assert input.Done(repl, k);
    }
  }

  lemma {:induction false} UntouchedIsRebuilt(ns: seq<Node>, repl: map<nat, seq<Node>>, input: Input, pre: bool, at: nat)
    requires forall k :: k in repl ==> k !in Ids(ns)
    ensures Rebuilt(ns, repl, input, pre, at, false)
    decreases ns
  {
    if ns != [] {
      if ns[0].Element? { UntouchedIsRebuilt(ns[0].kids, repl, input, pre, at); }
      UntouchedIsRebuilt(ns[1..], repl, input, pre, at);
    }
  }

  lemma {:induction false} SpanNodesAreNodes(ns: seq<Node>)
    ensures forall p :: p in SpanNodes(ns) ==> p.0 in Ids(ns)
    decreases ns
  {
    if ns != [] {
      if ns[0].Element? { SpanNodesAreNodes(ns[0].kids); }
      SpanNodesAreNodes(ns[1..]);
    }
  }

  /** The keys of `repl` that occur in the forest are text spans of the forest. */
  ghost predicate KeysAreSpans(ns: seq<Node>, repl: map<nat, seq<Node>>) {
    forall k :: k in repl && k in Ids(ns) ==> (k, false) in SpanNodes(ns)
  }

  function Below(n: Node): set<nat> { if n.Element? then Ids(n.kids) else {} }

  lemma SpansOfNode(n: Node)
    ensures forall p :: p in NodeSpanNodes(n) ==> p.0 == n.id || p.0 in Below(n)
    ensures forall p :: p in NodeSpanNodes(n) && !p.1 && n.Element? ==> !IsNocode(n.cls) && p in SpanNodes(n.kids)
    ensures forall p :: p in NodeSpanNodes(n) && n.Chars? ==> n.value != []
  {
    hide IsNocode, EndsLine;
    if n.Element? { SpanNodesAreNodes(n.kids); }
  }

  /** The same for one node. */
  ghost predicate NodeKeysAreSpans(n: Node, repl: map<nat, seq<Node>>) {
    forall k :: k in repl && (k == n.id || k in Below(n)) ==> (k, false) in NodeSpanNodes(n)
  }

  lemma KeysOfParts(ns: seq<Node>, repl: map<nat, seq<Node>>)
    requires ns != [] && Distinct(ns) && KeysAreSpans(ns, repl)
    ensures KeysAreSpans(ns[1..], repl) && NodeKeysAreSpans(ns[0], repl)
  {
    SpanNodesAreNodes(ns[1..]);
    SpansOfNode(ns[0]);
    hide NodeSpanNodes, IsNocode;
  }

  lemma {:induction false} DoneIsRebuilt(ns: seq<Node>, repl: map<nat, seq<Node>>, input: Input, pre: bool, at: nat)
    requires Distinct(ns) && KeysAreSpans(ns, repl) && |SpanNodes(ns)| == |Chunks(ns, pre)|
    requires AllDone(repl, input, SpanNodes(ns), Chunks(ns, pre), at)
    ensures Rebuilt(ns, repl, input, pre, at, true)
    decreases ns, 0
  {
    hide ChunkDone, NodeRebuilt, NodeSpanNodes, NodeChunks, KeysAreSpans, NodeKeysAreSpans, AllDone;
    if ns != [] {
      var n := ns[0];
      SameLengthNode(n, pre);
      SameLength(ns[1..], pre);
      KeysOfParts(ns, repl);
      AllDoneSplit(repl, input, NodeSpanNodes(n), NodeChunks(n, pre), SpanNodes(ns[1..]), Chunks(ns[1..], pre), at);
      DoneNodeIsRebuilt(n, repl, input, pre, at);
      DoneIsRebuilt(ns[1..], repl, input, pre, at + Length(n, pre));
    }
  }

  lemma SameLengthNode(n: Node, pre: bool)
    ensures |NodeSpanNodes(n)| == |NodeChunks(n, pre)|
  {
    if n.Element? { SameLength(n.kids, pre); }
  }

  lemma DoneNodeIsRebuilt(n: Node, repl: map<nat, seq<Node>>, input: Input, pre: bool, at: nat)
    requires n.Element? ==> Distinct(n.kids)
    requires NodeKeysAreSpans(n, repl) && |NodeSpanNodes(n)| == |NodeChunks(n, pre)|
    requires AllDone(repl, input, NodeSpanNodes(n), NodeChunks(n, pre), at)
    ensures NodeRebuilt(n, repl, input, pre, at, true)
    decreases n, 1
  {
    hide ChunkDone;
    if n.Element? && IsNocode(n.cls) {
      UntouchedIsRebuilt(n.kids, repl, input, pre, at);
    } else if n.Element? {
      SameLength(n.kids, pre);
      var ends := if EndsLine(n.name) then [(n.id, true)] else [];
      var line := if EndsLine(n.name) then [[NEWLINE]] else [];
      AllDoneSplit(repl, input, SpanNodes(n.kids), Chunks(n.kids, pre), ends, line, at);
      DoneIsRebuilt(n.kids, repl, input, pre, at);
    }
  }
}
