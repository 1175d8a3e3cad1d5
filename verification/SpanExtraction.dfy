/** Flattening a document to the source text and its spans: for every text node,
    and every line-ending element, where its text starts. */
module SpanExtraction {
  import opened Prelude
  import opened Dom

  /** `element` is the node's type: 1, or a text type. */
  datatype Span = Span(start: nat, id: nat, element: bool)

  // ---- text as the lexers see it ----

  /** `replace(/\r\n?/g, "\n")` */
  function UnixBreaks(v: Text): (t: Text)
    ensures v != [] ==> t != []
    decreases |v|
  {
    if v == [] then []
    else if v[0] == RETURN then
      [NEWLINE] + UnixBreaks(if |v| > 1 && v[1] == NEWLINE then v[2..] else v[1..])
    else [v[0]] + UnixBreaks(v[1..])
  }

  predicate IsBlank(c: CodeUnit) { c == 9 || c == 10 || c == 13 || c == 32 }

  /** `replace(/[\t\n\r ]+/g, " ")`; `inRun` says that the blank before `v` was replaced. */
  function Collapse(v: Text, inRun: bool): (t: Text)
    ensures v != [] && !inRun ==> t != []
  {
    if v == [] then []
    else if IsBlank(v[0]) then (if inRun then [] else [SPACE]) + Collapse(v[1..], true)
    else [v[0]] + Collapse(v[1..], false)
  }

  function Normal(v: Text, pre: bool): (t: Text)
    ensures v != [] ==> t != []
    ensures v == [] ==> t == []
  {
    if pre then UnixBreaks(v) else Collapse(v, false)
  }

  /** `br` and `li`, whatever their case. */
  predicate EndsLine(name: Text) { ToLowerAscii(name) == [98, 114] || ToLowerAscii(name) == [108, 105] }

  /** The two names in capitals, in small letters, or mixed. */
  lemma EndsLineMeans(name: Text)
    ensures EndsLine(name) <==>
              |name| == 2 && ((name[0] in {66, 98} && name[1] in {82, 114}) || (name[0] in {76, 108} && name[1] in {73, 105}))
  {
    if |name| == 2 { assert ToLowerAscii(name) == [ToLowerAscii(name)[0], ToLowerAscii(name)[1]]; }
  }

  /** `s.replace(/\n$/, "")` */
  function DropFinalNewline(s: Text): Text {
    if s != [] && s[|s|-1] == NEWLINE then s[..|s|-1] else s
  }

  // ---- what the traversal collects ----

  /** The text of each span, in document order. */
  function Chunks(ns: seq<Node>, pre: bool): seq<Text>
    decreases ns, 0
  {
    if ns == [] then [] else NodeChunks(ns[0], pre) + Chunks(ns[1..], pre)
  }

  /** An element's own line end comes after the text of its children. */
  function NodeChunks(n: Node, pre: bool): seq<Text>
    decreases n, 1
  {
    match n
    case Element(_, name, cls, kids) =>
      if IsNocode(cls) then [] else Chunks(kids, pre) + (if EndsLine(name) then [[NEWLINE]] else [])
    case Chars(_, value) => if value == [] then [] else [Normal(value, pre)]
    case Other(_) => []
  }

  /** The nodes of the spans, in the same order. */
  function SpanNodes(ns: seq<Node>): seq<(nat, bool)>
    decreases ns, 0
  {
    if ns == [] then [] else NodeSpanNodes(ns[0]) + SpanNodes(ns[1..])
  }

  function NodeSpanNodes(n: Node): seq<(nat, bool)>
    decreases n, 1
  {
    match n
    case Element(id, name, cls, kids) =>
      if IsNocode(cls) then [] else SpanNodes(kids) + (if EndsLine(name) then [(id, true)] else [])
    case Chars(id, value) => if value == [] then [] else [(id, false)]
    case Other(_) => []
  }

  /** The text of the document before its final newline is dropped. */
  function Raw(ns: seq<Node>, pre: bool): Text { Concat(Chunks(ns, pre)) }

  function SourceOf(ns: seq<Node>, pre: bool): Text { DropFinalNewline(Raw(ns, pre)) }

  /** One final newline is dropped, and nothing else. */
  lemma SourceMeans(ns: seq<Node>, pre: bool)
    ensures var text := Raw(ns, pre);
            if text != [] && text[|text|-1] == 10 then text == SourceOf(ns, pre) + [10] else text == SourceOf(ns, pre)
  {}

  /** Each span with its start, the total length of the chunks before it. */
  function PlacedSpans(nodes: seq<(nat, bool)>, chunks: seq<Text>, at: nat): (spans: seq<Span>)
    requires |nodes| == |chunks|
    ensures |spans| == |nodes|
  {
    if nodes == [] then []
    else [Span(at, nodes[0].0, nodes[0].1)] + PlacedSpans(nodes[1..], chunks[1..], at + |chunks[0]|)
  }

  lemma {:induction false} SameLength(ns: seq<Node>, pre: bool)
    ensures |SpanNodes(ns)| == |Chunks(ns, pre)|
  {
    if ns != [] {
      if ns[0].Element? { SameLength(ns[0].kids, pre); }
      SameLength(ns[1..], pre);
    }
  }

  function SpansOf(ns: seq<Node>, pre: bool): seq<Span> {
    SameLength(ns, pre);
    PlacedSpans(SpanNodes(ns), Chunks(ns, pre), 0)
  }

  // ---- properties of the spans ----

  lemma {:induction false} ChunksAreNonempty(ns: seq<Node>, pre: bool)
    ensures forall i :: 0 <= i < |Chunks(ns, pre)| ==> Chunks(ns, pre)[i] != []
    decreases ns, 0
  {
    hide NodeChunks;
    if ns != [] {
      NodeChunksAreNonempty(ns[0], pre);
      ChunksAreNonempty(ns[1..], pre);
    }
  }

  lemma {:induction false} NodeChunksAreNonempty(n: Node, pre: bool)
    ensures forall i :: 0 <= i < |NodeChunks(n, pre)| ==> NodeChunks(n, pre)[i] != []
    decreases n, 1
  {
    if n.Element? { ChunksAreNonempty(n.kids, pre); }
  }

  lemma {:induction false} PlaceStarts(nodes: seq<(nat, bool)>, chunks: seq<Text>, at: nat, i: nat)
    requires |nodes| == |chunks| && i < |nodes|
    ensures var s := PlacedSpans(nodes, chunks, at)[i];
            s == Span(at + |Concat(chunks[..i])|, nodes[i].0, nodes[i].1)
  {
    if i > 0 {
      PlaceStarts(nodes[1..], chunks[1..], at + |chunks[0]|, i - 1);
      assert chunks[..i] == [chunks[0]] + chunks[1..][..i-1];
    }
  }

  lemma {:induction false} ConcatPrefixGrows(chunks: seq<Text>, i: nat, j: nat)
    requires i < j <= |chunks| && forall k :: 0 <= k < |chunks| ==> chunks[k] != []
    ensures |Concat(chunks[..i])| + |chunks[i]| <= |Concat(chunks[..j])|
    ensures j == i + 1 ==> Concat(chunks[..j]) == Concat(chunks[..i]) + chunks[i]
    decreases j
  {
    ConcatSnoc(chunks[..j-1], chunks[j-1]);
    assert chunks[..j] == chunks[..j-1] + [chunks[j-1]];
    if i < j - 1 { ConcatPrefixGrows(chunks, i, j - 1); }
  }

  lemma PlacedSpansTile(nodes: seq<(nat, bool)>, chunks: seq<Text>, spans: seq<Span>)
    requires |nodes| == |chunks| && spans == PlacedSpans(nodes, chunks, 0)
    requires forall k :: 0 <= k < |chunks| ==> chunks[k] != []
    ensures forall i :: 0 <= i < |spans| ==> spans[i].start == |Concat(chunks[..i])|
    ensures spans != [] ==> spans[0].start == 0
    ensures forall i, j :: 0 <= i < j < |spans| ==> spans[i].start < spans[j].start
    ensures forall i :: 0 <= i < |spans| ==> spans[i].start + |chunks[i]| <= |Concat(chunks)|
  {
    hide PlacedSpans;
    forall i | 0 <= i < |spans| ensures spans[i].start == |Concat(chunks[..i])| {
      PlaceStarts(nodes, chunks, 0, i);
    }
    forall i, j | 0 <= i < j < |spans| ensures spans[i].start < spans[j].start {
      ConcatPrefixGrows(chunks, i, j);
    }
    forall i | 0 <= i < |spans| ensures spans[i].start + |chunks[i]| <= |Concat(chunks)| {
      ConcatPrefixGrows(chunks, i, |chunks|);
      assert chunks[..|chunks|] == chunks;
    }
  }

  /** Starts are the total length of the earlier chunks, begin with 0 and are
      strictly increasing; the chunks together are the source, up to one final
      newline. */
  lemma SpansTile(ns: seq<Node>, pre: bool)
    ensures |SpansOf(ns, pre)| == |Chunks(ns, pre)|
    ensures forall i :: 0 <= i < |SpansOf(ns, pre)| ==>
              SpansOf(ns, pre)[i].start == |Concat(Chunks(ns, pre)[..i])| <= |SourceOf(ns, pre)|
    ensures SpansOf(ns, pre) != [] ==> SpansOf(ns, pre)[0].start == 0
    ensures forall i, j :: 0 <= i < j < |SpansOf(ns, pre)| ==> SpansOf(ns, pre)[i].start < SpansOf(ns, pre)[j].start
    ensures var raw, src := Concat(Chunks(ns, pre)), SourceOf(ns, pre); raw == src || raw == src + [NEWLINE]
  {
    hide PlacedSpans, Chunks, SpanNodes;
    var nodes, chunks, spans := SpanNodes(ns), Chunks(ns, pre), SpansOf(ns, pre);
    SameLength(ns, pre);
    ChunksAreNonempty(ns, pre);
    PlacedSpansTile(nodes, chunks, spans);
  }

  lemma {:induction false} ChunksAppend(a: seq<Node>, b: seq<Node>, pre: bool)
    ensures Chunks(a + b, pre) == Chunks(a, pre) + Chunks(b, pre)
    ensures SpanNodes(a + b) == SpanNodes(a) + SpanNodes(b)
  {
    if a == [] {
      assert a + b == b;
    } else {
      assert (a + b)[1..] == a[1..] + b && (a + b)[0] == a[0];
      ChunksAppend(a[1..], b, pre);
      hide NodeChunks, NodeSpanNodes;
    }
  }

  lemma {:induction false} PlaceAppend(n: seq<(nat, bool)>, c: seq<Text>, n': seq<(nat, bool)>, c': seq<Text>, at: nat)
    requires |n| == |c| && |n'| == |c'|
    ensures PlacedSpans(n + n', c + c', at) == PlacedSpans(n, c, at) + PlacedSpans(n', c', at + |Concat(c)|)
  {
    if n == [] {
      assert n + n' == n' && c + c' == c';
    } else {
      assert (n + n')[1..] == n[1..] + n' && (c + c')[1..] == c[1..] + c';
      PlaceAppend(n[1..], c[1..], n', c', at + |c[0]|);
    }
  }

  /** The variables of the traversal: text pieces, their total length, and spans. */
  datatype Collected = Collected(chunks: seq<Text>, length: nat, spans: seq<Span>)

  function Extended(c: Collected, nodes: seq<(nat, bool)>, chunks: seq<Text>): Collected
    requires |nodes| == |chunks|
  {
    Collected(c.chunks + chunks, c.length + |Concat(chunks)|, c.spans + PlacedSpans(nodes, chunks, c.length))
  }

  /** What has been collected after the traversal of a forest. */
  function After(c: Collected, ns: seq<Node>, pre: bool): Collected {
    SameLength(ns, pre);
    Extended(c, SpanNodes(ns), Chunks(ns, pre))
  }

  lemma ExtendedTwice(c: Collected, n1: seq<(nat, bool)>, c1: seq<Text>, n2: seq<(nat, bool)>, c2: seq<Text>)
    requires |n1| == |c1| && |n2| == |c2|
    ensures Extended(Extended(c, n1, c1), n2, c2) == Extended(c, n1 + n2, c1 + c2)
  {
    ConcatAppend(c1, c2);
    PlaceAppend(n1, c1, n2, c2, c.length);
    Reassociate(c.chunks, c1, c2);
    Reassociate(c.spans, PlacedSpans(n1, c1, c.length), PlacedSpans(n2, c2, c.length + |Concat(c1)|));
  }

  lemma AfterBoth(c: Collected, a: seq<Node>, b: seq<Node>, pre: bool)
    ensures After(After(c, a, pre), b, pre) == After(c, a + b, pre)
  {
    hide Extended;
    SameLength(a, pre);
    SameLength(b, pre);
    ChunksAppend(a, b, pre);
    ExtendedTwice(c, SpanNodes(a), Chunks(a, pre), SpanNodes(b), Chunks(b, pre));
  }

  /** One more piece of text, with its span. */
  function Pushed(c: Collected, text: Text, id: nat, element: bool): Collected {
    Collected(c.chunks + [text], c.length + |text|, c.spans + [Span(c.length, id, element)])
  }

  lemma PushedIsExtended(c: Collected, text: Text, id: nat, element: bool)
    ensures Pushed(c, text, id, element) == Extended(c, [(id, element)], [text])
  {
    ConcatSnoc([], text);
    assert Concat([text]) == text by { assert [] + [text] == [text]; }
    var nodes, chunks := [(id, element)], [text];
    assert PlacedSpans(nodes[1..], chunks[1..], c.length + |text|) == [];
    assert PlacedSpans(nodes, chunks, c.length) == [Span(c.length, id, element)];
  }

  lemma AfterText(c: Collected, id: nat, value: Text, pre: bool)
    requires value != []
    ensures After(c, [Chars(id, value)], pre) == Pushed(c, Normal(value, pre), id, false)
  {
    var ns, t := [Chars(id, value)], Normal(value, pre);
    assert ns[1..] == [];
    assert Chunks(ns[1..], pre) == [] && SpanNodes(ns[1..]) == [];
    assert NodeSpanNodes(ns[0]) == [(id, false)] && NodeChunks(ns[0], pre) == [t];
    assert SpanNodes(ns) == [(id, false)] + [] && Chunks(ns, pre) == [t];
    PushedIsExtended(c, t, id, false);
  }

  /** An element collects what its children collect, and then its own line end. */
  lemma AfterElement(c: Collected, n: Node, pre: bool)
    requires n.Element? && !IsNocode(n.cls)
    ensures var inside := After(c, n.kids, pre);
            After(c, [n], pre) == if EndsLine(n.name) then Pushed(inside, [NEWLINE], n.id, true) else inside
  {
    hide Extended;
    assert [n][1..] == [];
    SameLength(n.kids, pre);
    var nodes, chunks := SpanNodes(n.kids), Chunks(n.kids, pre);
    if EndsLine(n.name) {
      assert Chunks([n], pre) == chunks + [[NEWLINE]] && SpanNodes([n]) == nodes + [(n.id, true)];
      PushedIsExtended(After(c, n.kids, pre), [NEWLINE], n.id, true);
      ExtendedTwice(c, nodes, chunks, [(n.id, true)], [[NEWLINE]]);
    } else {
      assert Chunks([n], pre) == chunks && SpanNodes([n]) == nodes;
    }
  }

  lemma AfterNothing(c: Collected, ns: seq<Node>, pre: bool)
    requires Chunks(ns, pre) == []
    ensures After(c, ns, pre) == c
  {
    SameLength(ns, pre);
    assert c.chunks + [] == c.chunks && c.spans + [] == c.spans;
  }

  class Extractor {
    var chunks: seq<Text>
    var length: nat
    var spans: seq<Span>

    constructor ()
      ensures Value() == Collected([], 0, [])
    {
      chunks, length, spans := [], 0, [];
    }

    function Value(): Collected
      reads this
    {
      Collected(chunks, length, spans)
    }

    method Push(text: Text, id: nat, element: bool)
      modifies this
      ensures Value() == Pushed(old(Value()), text, id, element)
    {
      chunks := chunks + [text];
      spans := spans + [Span(length, id, element)];
      length := length + |text|;
    }

    method Walk(n: Node, pre: bool)
      modifies this
      ensures Value() == After(old(Value()), [n], pre)
      decreases n
    {
      hide After, Pushed, Normal;
      match n
      case Element(id, name, cls, kids) =>
        if !IsNocode(cls) {
          AfterElement(Value(), n, pre);
          WalkAll(kids, pre);
          if EndsLine(name) {
            Push([NEWLINE], id, true);
          }
        } else {
          SaysNothing(n, pre);
          AfterNothing(Value(), [n], pre);
        }
      case Chars(id, value) =>
        if |value| > 0 {
          AfterText(Value(), id, value, pre);
          Push(Normal(value, pre), id, false);
        } else {
          SaysNothing(n, pre);
          AfterNothing(Value(), [n], pre);
        }
      case Other(_) =>
        SaysNothing(n, pre);
        AfterNothing(Value(), [n], pre);
    }

    /** The loop from `firstChild` along `nextSibling`. */
    method WalkAll(kids: seq<Node>, pre: bool)
      modifies this
      ensures Value() == After(old(Value()), kids, pre)
      decreases kids
    {
      hide After;
      AfterNothing(Value(), kids[..0], pre);
      for k := 0 to |kids|
        invariant Value() == After(old(Value()), kids[..k], pre)
      {
        Walk(kids[k], pre);
        AfterBoth(old(Value()), kids[..k], [kids[k]], pre);
        assert kids[..k+1] == kids[..k] + [kids[k]];
      }
      assert kids[..|kids|] == kids;
    }
  }

  /** A node of class `nocode`, an empty text, or neither element nor text. */
  lemma SaysNothing(n: Node, pre: bool)
    requires match n
             case Element(_, _, cls, _) => IsNocode(cls)
             case Chars(_, value) => value == []
             case Other(_) => true
    ensures Chunks([n], pre) == []
  {
    assert [n][1..] == [];
  }

  /** `extractSourceSpans` */
  method ExtractSourceSpans(root: Node, pre: bool) returns (source: Text, spans: seq<Span>)
    ensures source == SourceOf([root], pre)
    ensures spans == SpansOf([root], pre)
  {
    var e := new Extractor();
    e.Walk(root, pre);
    assert e.chunks == Chunks([root], pre);
    source, spans := DropFinalNewline(Concat(e.chunks)), e.spans;
  }
}
