/** Putting the decorations back into the document: every text node is cut at the
    style changes, and each piece is wrapped in a new element with its style. The
    loop goes through spans and styles with one cursor each. */
module Recombination {
  import opened Prelude
  import opened Dom
  import opened SpanExtraction
  import opened Decorations

  const SPAN_NAME: Text := [115, 112, 97, 110]

  // ---- documents with text nodes replaced ----

  function Replacement(repl: map<nat, seq<Node>>, n: Node): seq<Node> {
    if n.id in repl then repl[n.id] else [n]
  }

  /** The document with the text nodes in `repl` replaced by their lists. */
  function Rebuild(ns: seq<Node>, repl: map<nat, seq<Node>>): seq<Node> {
    if ns == [] then []
    else
      (match ns[0]
       case Element(_, _, _, kids) => [ns[0].(kids := Rebuild(kids, repl))]
       case Chars(_, _) => Replacement(repl, ns[0])
       case Other(_) => [ns[0]]) + Rebuild(ns[1..], repl)
  }

  /** The text nodes of a forest. */
  function Texts(ns: seq<Node>): set<Node> {
    if ns == [] then {}
    else (match ns[0]
          case Element(_, _, _, kids) => Texts(kids)
          case Chars(_, _) => {ns[0]}
          case Other(_) => {}) + Texts(ns[1..])
  }

  /** Identities of nodes that are no text. */
  function Structure(ns: seq<Node>): set<nat> {
    if ns == [] then {}
    else (match ns[0]
          case Element(id, _, _, kids) => {id} + Structure(kids)
          case Chars(_, _) => {}
          case Other(id) => {id}) + Structure(ns[1..])
  }

  lemma {:induction false} RebuildNothing(ns: seq<Node>)
    ensures Rebuild(ns, map[]) == ns
  {
    if ns != [] {
      if ns[0].Element? { RebuildNothing(ns[0].kids); }
      RebuildNothing(ns[1..]);
    }
  }

  lemma RebuildHead(ns: seq<Node>, repl: map<nat, seq<Node>>)
    requires ns != []
    ensures Rebuild(ns, repl) == Rebuild([ns[0]], repl) + Rebuild(ns[1..], repl)
  {
    var one := [ns[0]];
    assert one[1..] == [] && Rebuild(one[1..], repl) == [];
  }

  /** Replacing one node of a rebuilt document amounts to changing the lists. */
  lemma {:induction false} ReplaceInRebuild(ns: seq<Node>, repl: map<nat, seq<Node>>, repl': map<nat, seq<Node>>,
                                            id: nat, list: seq<Node>)
    requires id !in Structure(ns)
    requires forall n :: n in Texts(ns) ==> Replace(Replacement(repl, n), id, list) == Replacement(repl', n)
    ensures Replace(Rebuild(ns, repl), id, list) == Rebuild(ns, repl')
  {
    if ns != [] {
      var n := ns[0];
      var front := Rebuild([n], repl);
      ReplaceInRebuild(ns[1..], repl, repl', id, list);
      RebuildHead(ns, repl);
      ReplaceAppend(front, Rebuild(ns[1..], repl), id, list);
      match n
      case Element(_, _, _, kids) =>
        ReplaceInRebuild(kids, repl, repl', id, list);
        assert front == [n.(kids := Rebuild(kids, repl))];
        assert front[1..] == [];
      case Chars(_, _) =>
        assert front == Replacement(repl, n);
      case Other(_) =>
        assert front == [n];
    }
  }

  // ---- pieces ----

  function InForce(ds: seq<Decoration>, p: nat): Text {
    var s := StyleAt(ds, p);
    if s.Some? then s.value else []
  }

  /** A piece: a `span` with its style, holding one nonempty text. */
  predicate IsPiece(n: Node) {
    && n.Element? && n.name == SPAN_NAME
    && |n.kids| == 1 && n.kids[0].Chars? && n.kids[0].value != []
  }

  predicate ArePieces(ns: seq<Node>) { forall n :: n in ns ==> IsPiece(n) }

  /** Each character under the pieces with the class of its piece. */
  function Painted(pieces: seq<Node>): seq<(CodeUnit, Text)>
    requires ArePieces(pieces)
  {
    if pieces == [] then []
    else
      var last := pieces[|pieces|-1];
      assert IsPiece(last);
      Painted(pieces[..|pieces|-1]) + Paint(last.kids[0].value, last.cls)
  }

  function Paint(t: Text, style: Text): (p: seq<(CodeUnit, Text)>)
    ensures |p| == |t|
  {
    seq(|t|, i requires 0 <= i < |t| => (t[i], style))
  }

  /** Each source character of a range with the style in force at its position. */
  function Styled(src: Text, ds: seq<Decoration>, from: nat, to: nat): (p: seq<(CodeUnit, Text)>)
    requires from <= to <= |src|
    ensures |p| == to - from
  {
    seq(to - from, i requires 0 <= i < to - from => (src[from+i], InForce(ds, from + i)))
  }

  /** What stands for a text node once the range from `from` to `to` of its text
      is wrapped: the pieces, and a last text node with the rest. */
  predicate IsCut(list: seq<Node>, src: Text, ds: seq<Decoration>, from: nat, to: nat, id: nat, rest: Text)
    requires from <= to <= |src|
  {
    && list != [] && list[|list|-1] == Chars(id, rest)
    && ArePieces(list[..|list|-1])
    && Painted(list[..|list|-1]) == Styled(src, ds, from, to)
  }

  lemma StyleBetween(ds: seq<Decoration>, r: nat, p: nat)
    requires Increasing(ds) && r < |ds| && ds[r].pos <= p && (r + 1 < |ds| ==> p < ds[r+1].pos)
    ensures InForce(ds, p) == ds[r].style
  {
    if r + 1 < |ds| { StyleBetween(ds[..|ds|-1], r, p); }
  }

  /** One more piece, in front of the rest of the text. */
  lemma CutMore(list: seq<Node>, src: Text, ds: seq<Decoration>, from: nat, g: nat, t: nat, id: nat, rest: Text,
                piece: Node, r: nat, id': nat, rest': Text, list': seq<Node>)
    requires from <= g < t <= |src| && Increasing(ds)
    requires if list == [] then from == g else IsCut(list, src, ds, from, g, id, rest)
    requires r < |ds| && ds[r].pos <= g && (r + 1 < |ds| ==> t <= ds[r+1].pos)
    requires IsPiece(piece) && piece.cls == ds[r].style && piece.kids[0].value == src[g..t]
    requires list' == (if list == [] then [] else list[..|list|-1]) + [piece, Chars(id', rest')]
    ensures IsCut(list', src, ds, from, t, id', rest')
  {
    var pieces := if list == [] then [] else list[..|list|-1];
    var pieces' := list'[..|list'|-1];
    assert pieces' == pieces + [piece] && pieces'[..|pieces'|-1] == pieces;
    forall p | g <= p < t ensures InForce(ds, p) == ds[r].style {
      StyleBetween(ds, r, p);
    }
    assert Styled(src, ds, from, t) == Styled(src, ds, from, g) + Paint(src[g..t], ds[r].style);
  }

  // ---- the state of the loop ----

  /** What the loop is given: the source text, compacted decorations, and spans. */
  datatype Input = Input(src: Text, ds: seq<Decoration>, spans: seq<Span>) {

    /** `spans[b + 2] || sourceLength`, with spans counted one by one. */
    function EndOf(q: nat): nat
      requires q < |spans|
    {
      if q + 1 < |spans| && spans[q+1].start != 0 then spans[q+1].start else |src|
    }

    /** `decorations[r + 2] || sourceLength`, likewise, past the end of the list too. */
    function StyleEnd(r: nat): nat {
      if r + 1 < |ds| && ds[r+1].pos != 0 then ds[r+1].pos else |src|
    }

    predicate Valid() {
      && (forall i, j :: 0 <= i < j < |spans| ==> spans[i].start < spans[j].start)
      && (forall i :: 0 <= i < |spans| ==> spans[i].start <= |src|)
      && (spans != [] ==> spans[0].start == 0)
      && Increasing(ds) && (src != [] ==> ds != [] && ds[0].pos == 0)
    }

    /** Span `q` has text left in the source and is a text node: it will be cut. */
    predicate Cuts(q: nat)
      requires q < |spans|
    {
      !spans[q].element && spans[q].start < EndOf(q)
    }

    /** The lists say that span `q` has been dealt with. */
    predicate Done(repl: map<nat, seq<Node>>, q: nat)
      requires q < |spans| && Valid()
    {
      if Cuts(q) then
        && spans[q].id in repl && repl[spans[q].id] != [] && EndOf(q) <= |src|
        && var list := repl[spans[q].id];
           IsCut(list, src, ds, spans[q].start, EndOf(q), list[|list|-1].id, [])
      else spans[q].element || spans[q].id !in repl
    }

    /** Span `q`, whose node is now `id`, has been dealt with up to `g`. */
    predicate Underway(repl: map<nat, seq<Node>>, q: nat, id: nat, g: nat)
      requires q < |spans| && Valid()
    {
      && spans[q].start <= g <= EndOf(q) <= |src|
      && if spans[q].element then true
         else if spans[q].id in repl then
           spans[q].start < g && IsCut(repl[spans[q].id], src, ds, spans[q].start, g, id, src[g..EndOf(q)])
         else id == spans[q].id && g == spans[q].start
    }
  }

  /** How the spans lie in the document: they name text nodes by different
      identities, and identities from `unused` on are unused. */
  predicate Fits(root: seq<Node>, spans: seq<Span>, unused: nat) {
    && (forall i :: 0 <= i < |spans| && !spans[i].element ==> spans[i].id !in Structure(root) && spans[i].id < unused)
    && (forall i, j :: 0 <= i < j < |spans| && !spans[i].element && !spans[j].element ==> spans[i].id != spans[j].id)
    && (forall n :: n in Texts(root) ==> n.id < unused)
    && (forall id :: id in Structure(root) ==> id < unused)
  }

  /** The lists belong to the first `n` spans and hold, besides the node they
      replace, only new nodes. */
  predicate Owned(repl: map<nat, seq<Node>>, spans: seq<Span>, n: nat, unused0: nat, unused: nat)
    requires n <= |spans|
  {
    forall k :: k in repl ==>
      && (exists q :: 0 <= q < n && !spans[q].element && spans[q].id == k)
      && forall id :: id in Ids(repl[k]) ==> id == k || unused0 <= id < unused
  }

  /** The document being edited: its tree, and the first unused identity. */
  class Document {
    var root: seq<Node>
    var unused: nat

    constructor (root: seq<Node>, unused: nat)
      ensures this.root == root && this.unused == unused
    {
      this.root, this.unused := root, unused;
    }

    /** Wraps a text node, cut down to `piece`, in a new `span`, and puts a new
        text node with the rest behind the `span`. */
    method WrapPiece(id: nat, piece: Text, style: Text, rest: Text) returns (restId: nat)
      modifies this
      ensures restId == old(unused) + 1 && unused == old(unused) + 2
      ensures root == Replace(old(root), id, Wrapped(id, piece, style, rest, old(unused)))
    {
      var wrapped := Element(unused, SPAN_NAME, style, [Chars(id, piece)]);
      root := Replace(root, id, [wrapped, Chars(unused + 1, rest)]);
      restId := unused + 1;
      unused := unused + 2;
    }
  }

  function Wrapped(id: nat, piece: Text, style: Text, rest: Text, unused: nat): seq<Node> {
    [Element(unused, SPAN_NAME, style, [Chars(id, piece)]), Chars(unused + 1, rest)]
  }

  // ---- one cut ----

  function CutList(repl: map<nat, seq<Node>>, key: nat, wrapped: seq<Node>): seq<Node>
    requires key in repl ==> repl[key] != []
  {
    (if key in repl then repl[key][..|repl[key]|-1] else []) + wrapped
  }

  /** Wrapping a piece in the document is the same as extending the list of its span. */
  lemma WrapExtendsList(root: seq<Node>, repl: map<nat, seq<Node>>, key: nat, id: nat, wrapped: seq<Node>)
    requires id !in Structure(root)
    requires if key in repl then repl[key] != [] && repl[key][|repl[key]|-1].id == id
                                 && id !in Ids(repl[key][..|repl[key]|-1])
                                 && (forall n :: n in Texts(root) && n.id !in repl ==> n.id != id)
             else id == key
    requires forall k :: k in repl && k != key ==> id !in Ids(repl[k])
    ensures Replace(Rebuild(root, repl), id, wrapped) == Rebuild(root, repl[key := CutList(repl, key, wrapped)])
  {
    var repl' := repl[key := CutList(repl, key, wrapped)];
    forall n | n in Texts(root)
      ensures Replace(Replacement(repl, n), id, wrapped) == Replacement(repl', n)
    {
      if n.id == key && key in repl {
        var list := repl[key];
        var front, last := list[..|list|-1], list[|list|-1];
        assert list == front + [last];
        ReplaceAppend(front, [last], id, wrapped);
        ReplaceAbsent(front, id, wrapped);
        assert Replace([last][1..], id, wrapped) == [];
        assert Replace([last], id, wrapped) == wrapped + [];
      } else if n.id == key {
        assert Replace([n][1..], id, wrapped) == [];
        assert Replace([n], id, wrapped) == wrapped + [];
      } else if n.id in repl {
        ReplaceAbsent(repl[n.id], id, wrapped);
      } else {
        assert [n][1..] == [];
        TextIsItself(n, root);
        ReplaceAbsent([n], id, wrapped);
      }
    }
    ReplaceInRebuild(root, repl, repl', id, wrapped);
  }

  lemma {:induction false} TextIsItself(n: Node, root: seq<Node>)
    requires n in Texts(root)
    ensures n.Chars? && Ids([n]) == {n.id}
  {
    assert [n][1..] == [];
    if root[0].Element? && n in Texts(root[0].kids) {
      TextIsItself(n, root[0].kids);
    } else if n in Texts(root[1..]) {
      TextIsItself(n, root[1..]);
    }
  }

  lemma WrappedIds(id: nat, piece: Text, style: Text, rest: Text, unused: nat)
    ensures Ids(Wrapped(id, piece, style, rest, unused)) == {unused, id, unused + 1}
    ensures Ids(Wrapped(id, piece, style, rest, unused)[..1]) == {unused, id}
  {
    var w := Wrapped(id, piece, style, rest, unused);
    assert w[1..][1..] == [] && w[..1][1..] == [] && w[0].kids[1..] == [];
    assert Ids(w[0].kids) == {id} && Ids(w[1..]) == {unused + 1} && w[..1][0] == w[0];
  }

  lemma CutListIds(repl: map<nat, seq<Node>>, key: nat, wrapped: seq<Node>, last: nat)
    requires |wrapped| == 2 && wrapped[1].id == last && (key in repl ==> repl[key] != [])
    ensures var list, before := CutList(repl, key, wrapped), if key in repl then Ids(repl[key]) else {};
            && list != [] && list[|list|-1].id == last
            && Ids(list) <= before + Ids(wrapped)
            && Ids(list[..|list|-1]) <= before + Ids(wrapped[..1])
  {
    hide Ids;
    var front := if key in repl then repl[key][..|repl[key]|-1] else [];
    var list := CutList(repl, key, wrapped);
    IdsAppend(front, wrapped);
    IdsAppend(front, wrapped[..1]);
    assert list[..|list|-1] == front + wrapped[..1];
    if key in repl {
      IdsAppend(front, [repl[key][|repl[key]|-1]]);
      assert repl[key] == front + [repl[key][|repl[key]|-1]];
    } else {
      assert [] + wrapped == wrapped && [] + wrapped[..1] == wrapped[..1];
    }
  }

  /** After a cut the lists hold only old nodes of their span and new nodes, and
      the newest text node is in one place only. */
  lemma OwnedAfterCut(repl: map<nat, seq<Node>>, spans: seq<Span>, n: nat, q: nat, id: nat, wrapped: seq<Node>,
                      piece: Text, style: Text, rest: Text, unused0: nat, unused: nat)
    requires q < n <= |spans| && !spans[q].element && Owned(repl, spans, n, unused0, unused)
    requires wrapped == Wrapped(id, piece, style, rest, unused) && unused0 <= unused
    requires id == spans[q].id || unused0 <= id < unused
    requires spans[q].id < unused0 && (spans[q].id in repl ==> repl[spans[q].id] != [])
    requires forall k :: k in repl ==> k < unused0
    ensures var key := spans[q].id;
            var list := CutList(repl, key, wrapped);
            && Owned(repl[key := list], spans, n, unused0, unused + 2)
            && list != [] && list[|list|-1].id == unused + 1 && unused + 1 !in Ids(list[..|list|-1])
            && forall k :: k in repl && k != key ==> unused + 1 !in Ids(repl[k])
  {
    WrappedIds(id, piece, style, rest, unused);
    CutListIds(repl, spans[q].id, wrapped, unused + 1);
    hide Ids, CutList, Wrapped;
  }

  lemma DoneAfterCut(input: Input, repl: map<nat, seq<Node>>, q: nat, b: nat, list: seq<Node>)
    requires input.Valid() && q < b < |input.spans| && !input.spans[b].element
    requires !input.spans[q].element ==> input.spans[q].id != input.spans[b].id
    requires input.Done(repl, q)
    ensures input.Done(repl[input.spans[b].id := list], q)
  {
  }

  lemma OwnedKeys(repl: map<nat, seq<Node>>, root: seq<Node>, spans: seq<Span>, n: nat, unused0: nat, unused: nat)
    requires n <= |spans| && Owned(repl, spans, n, unused0, unused) && Fits(root, spans, unused0)
    ensures forall k :: k in repl ==> k < unused0
  {
  }

  /** The node of a span is the one place where its identity occurs. */
  ghost predicate UniqueNode(repl: map<nat, seq<Node>>, key: nat, id: nat, unused0: nat, unused: nat) {
    && (id == key || unused0 <= id < unused)
    && (forall k :: k in repl && k != key ==> id !in Ids(repl[k]))
    && (if key in repl then repl[key] != [] && repl[key][|repl[key]|-1].id == id && unused0 <= id
                            && id !in Ids(repl[key][..|repl[key]|-1])
        else id == key)
  }

  /** The lists say that the first `b` spans are dealt with, and span `b`, whose
      node is now `id`, up to `g`. */
  ghost predicate CutUpTo(input: Input, unused0: nat, repl: map<nat, seq<Node>>, unused: nat,
                          b: nat, id: nat, g: nat)
    requires b < |input.spans| && input.Valid()
  {
    && unused0 <= unused
    && Owned(repl, input.spans, b + 1, unused0, unused)
    && (forall q :: 0 <= q < b ==> input.Done(repl, q))
    && input.Underway(repl, b, id, g)
    && (!input.spans[b].element ==> UniqueNode(repl, input.spans[b].id, id, unused0, unused))
  }

  lemma EndWithin(input: Input, q: nat)
    requires input.Valid() && q < |input.spans|
    ensures input.EndOf(q) <= |input.src|
  {
  }

  lemma CutDocument(input: Input, root0: seq<Node>, unused0: nat, repl: map<nat, seq<Node>>, unused: nat,
                    b: nat, id: nat, g: nat, wrapped: seq<Node>)
    requires input.Valid() && Fits(root0, input.spans, unused0)
    requires b < |input.spans| && !input.spans[b].element
    requires CutUpTo(input, unused0, repl, unused, b, id, g)
    ensures var key := input.spans[b].id;
            && (key in repl ==> repl[key] != [])
            && Replace(Rebuild(root0, repl), id, wrapped) == Rebuild(root0, repl[key := CutList(repl, key, wrapped)])
  {
    WrapExtendsList(root0, repl, input.spans[b].id, id, wrapped);
  }

  lemma CutLists(input: Input, root0: seq<Node>, unused0: nat, repl: map<nat, seq<Node>>, unused: nat,
                 b: nat, id: nat, g: nat, t: nat, r: nat, wrapped: seq<Node>, list: seq<Node>)
    requires input.Valid() && Fits(root0, input.spans, unused0)
    requires b < |input.spans| && !input.spans[b].element
    requires CutUpTo(input, unused0, repl, unused, b, id, g)
    requires g < t <= input.EndOf(b) && t <= input.StyleEnd(r)
    requires r < |input.ds| && input.ds[r].pos <= g
    requires wrapped == Wrapped(id, input.src[g..t], input.ds[r].style, input.src[t..input.EndOf(b)], unused)
    requires input.spans[b].id in repl ==> repl[input.spans[b].id] != []
    requires list == CutList(repl, input.spans[b].id, wrapped)
    ensures CutUpTo(input, unused0, repl[input.spans[b].id := list], unused + 2, b, unused + 1, t)
  {
    var key, l := input.spans[b].id, input.EndOf(b);
    OwnedKeys(repl, root0, input.spans, b + 1, unused0, unused);
    OwnedAfterCut(repl, input.spans, b + 1, b, id, wrapped, input.src[g..t], input.ds[r].style, input.src[t..l], unused0, unused);
    var repl' := repl[key := list];
    forall q | 0 <= q < b ensures input.Done(repl', q) {
      DoneAfterCut(input, repl, q, b, list);
    }
    CutMore(if key in repl then repl[key] else [], input.src, input.ds, input.spans[b].start, g, t, id, input.src[g..l],
            wrapped[0], r, unused + 1, input.src[t..l], list);
  }

  /** An element is passed over, and so is a text with nothing left in the source. */
  lemma Pass(input: Input, unused0: nat, repl: map<nat, seq<Node>>, unused: nat, b: nat, id: nat, g: nat, t: nat)
    requires input.Valid() && b < |input.spans| && CutUpTo(input, unused0, repl, unused, b, id, g)
    requires g <= t <= input.EndOf(b) && (input.spans[b].element || g == t)
    ensures CutUpTo(input, unused0, repl, unused, b, id, t)
  {
  }

  lemma WithinSpan(input: Input, unused0: nat, repl: map<nat, seq<Node>>, unused: nat, b: nat, id: nat, g: nat)
    requires input.Valid() && b < |input.spans| && CutUpTo(input, unused0, repl, unused, b, id, g)
    ensures g <= input.EndOf(b) <= |input.src|
  {
  }

  lemma NextStyle(input: Input, r: nat)
    requires input.Valid()
    ensures r + 1 < |input.ds| ==> input.StyleEnd(r) == input.ds[r+1].pos
    ensures r + 2 < |input.ds| ==> input.ds[r+1].pos < input.ds[r+2].pos
    ensures r + 1 >= |input.ds| ==> input.StyleEnd(r) == |input.src|
  {
  }

  /** At the end of a span it is done, and the next one has not been touched. */
  lemma Advance(input: Input, root0: seq<Node>, unused0: nat, repl: map<nat, seq<Node>>, unused: nat, b: nat, id: nat)
    requires input.Valid() && Fits(root0, input.spans, unused0) && b < |input.spans|
    requires CutUpTo(input, unused0, repl, unused, b, id, input.EndOf(b))
    ensures forall q :: 0 <= q <= b ==> input.Done(repl, q)
    ensures Owned(repl, input.spans, b + 1, unused0, unused)
    ensures b + 1 < |input.spans| ==>
              CutUpTo(input, unused0, repl, unused, b + 1, input.spans[b+1].id, input.EndOf(b))
  {
    assert input.Done(repl, b);
    if b + 1 < |input.spans| {
      assert input.spans[b].start < input.spans[b+1].start == input.EndOf(b) <= input.EndOf(b + 1);
      if !input.spans[b+1].element {
        var key := input.spans[b+1].id;
        assert key !in repl;
        assert UniqueNode(repl, key, key, unused0, unused);
      }
    }
  }

  // ---- the two-pointer loop ----

  /** The variables of the loop: the spans, whose nodes it replaces, the position
      `g` in the source, the span index `b`, and the decoration index `r`. */
  class Recombiner {
    const doc: Document
    const input: Input
    var spans: seq<Span>
    var g: nat
    var b: nat
    var r: nat
    ghost const root0: seq<Node>
    ghost const unused0: nat
    ghost var repl: map<nat, seq<Node>>

    constructor (doc: Document, input: Input)
      requires input.Valid() && Fits(doc.root, input.spans, doc.unused)
      ensures this.doc == doc && this.input == input && root0 == doc.root && unused0 == doc.unused
      ensures Invariant() && b == 0
    {
      this.doc, this.input := doc, input;
      spans, g, b, r := input.spans, 0, 0, 0;
      root0, unused0, repl := doc.root, doc.unused, map[];
      new;
      RebuildNothing(root0);
    }

    ghost predicate Given() { input.Valid() && Fits(root0, input.spans, unused0) }

    /** Where the loop is in its input. */
    ghost predicate Positions()
      reads this
    {
      && b <= |input.spans| == |spans|
      && (forall q :: 0 <= q < |spans| ==>
            spans[q].start == input.spans[q].start && spans[q].element == input.spans[q].element)
      && (forall q :: b < q < |spans| ==> spans[q] == input.spans[q])
      && g <= |input.src|
      && (g < |input.src| ==> r < |input.ds| && input.ds[r].pos <= g)
      && (r + 1 < |input.ds| ==> g < input.ds[r+1].pos)
    }

    /** What has been done to the document. */
    ghost predicate Progress(at: nat)
      reads this, doc
      requires Given() && b <= |input.spans| == |spans|
    {
      && doc.root == Rebuild(root0, repl)
      && if b < |spans| then CutUpTo(input, unused0, repl, doc.unused, b, spans[b].id, at)
         else Owned(repl, input.spans, b, unused0, doc.unused)
              && forall q :: 0 <= q < b ==> input.Done(repl, q)
    }

    ghost predicate Invariant()
      reads this, doc
    {
      Given() && Positions() && Progress(g)
    }

    /** The source's `if`: wrap the text from `g` to `t` and keep the rest as the
        node of the current span. */
    method Cut(t: nat, l: nat)
      requires Invariant() && b < |spans| && !spans[b].element
      requires l == input.EndOf(b) && g < t <= l && t <= input.StyleEnd(r)
      modifies this`spans, this`repl, doc
      ensures Positions() && Progress(t)
    {
      hide Wrapped, CutList, Rebuild, Fits, Input.Valid, CutUpTo;
      EndWithin(input, b);
      ghost var key, id, unused := input.spans[b].id, spans[b].id, doc.unused;
      ghost var wrapped := Wrapped(id, input.src[g..t], input.ds[r].style, input.src[t..l], unused);
      CutDocument(input, root0, unused0, repl, unused, b, id, g, wrapped);
      ghost var list := CutList(repl, key, wrapped);
      CutLists(input, root0, unused0, repl, unused, b, id, g, t, r, wrapped, list);
      var rest := doc.WrapPiece(spans[b].id, input.src[g..t], input.ds[r].style, input.src[t..l]);
      repl := repl[key := list];
      spans := spans[b := Span(spans[b].start, rest, false)];
    }

    method Run()
      requires Invariant()
      modifies this, doc
      ensures doc.root == Rebuild(root0, repl)
      ensures forall q :: 0 <= q < |input.spans| ==> input.Done(repl, q)
      ensures Owned(repl, input.spans, |input.spans|, unused0, doc.unused)
    {
      while b < |spans|
        invariant Invariant()
        decreases |spans| - b, |input.ds| - r
      {
        Step();
      }
    }

    /** The end of the loop body: the cursors move on to `t`. */
    method MoveTo(t: nat, l: nat, end: nat)
      requires Given() && Positions() && b < |spans| && Progress(t)
      requires l == input.EndOf(b) <= |input.src| && end == input.StyleEnd(r) && g <= t == Min(l, end)
      modifies this`g, this`b, this`r
      ensures Invariant()
      ensures b > old(b) || (b == old(b) && old(r) < |input.ds| && r > old(r))
    {
      hide CutUpTo, Fits, Input.Valid, Input.Done, Input.EndOf, Input.StyleEnd, Rebuild, Owned;
      NextStyle(input, r);
      g := t;
      if g >= l {
        Advance(input, root0, unused0, repl, doc.unused, b, spans[b].id);
        b := b + 1;
      }
      if g >= end {
        r := r + 1;
      }
    }

    /** The loop body. */
    method Step()
      requires Invariant() && b < |spans|
      modifies this, doc
      ensures Invariant() && |spans| == old(|spans|)
      ensures b > old(b) || (b == old(b) && old(r) < |input.ds| && r > old(r))
    {
      hide CutUpTo, Fits, Input.Valid, Input.Done, Input.EndOf, Input.StyleEnd, Rebuild, Owned;
      var l, end := input.EndOf(b), input.StyleEnd(r);
      var t := Min(l, end);
      WithinSpan(input, unused0, repl, doc.unused, b, spans[b].id, g);
      NextStyle(input, r);
      if !spans[b].element && input.src[g..t] != [] {
        Cut(t, l);
      } else {
        Pass(input, unused0, repl, doc.unused, b, spans[b].id, g, t);
      }
      MoveTo(t, l, end);
    }
  }
}
