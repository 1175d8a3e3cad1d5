/** The whole highlighter: extract, decorate, compact, recombine. Each stage's
    result is what the next stage expects. */
module Pipeline {
  import opened Prelude
  import opened Dom
  import opened SpanExtraction
  import opened Decorations
  import opened Recombination
  import opened Highlighting
  import opened TextPreservation
  import opened Lexer

  // ---- the spans fit the document ----

  lemma {:induction false} StructureAndTexts(ns: seq<Node>)
    ensures Structure(ns) <= Ids(ns)
    ensures forall n :: n in Texts(ns) ==> n.id in Ids(ns)
  {
    if ns != [] {
      if ns[0].Element? { StructureAndTexts(ns[0].kids); }
      StructureAndTexts(ns[1..]);
    }
  }

  /** The text spans of a list of nodes name different nodes. */
  predicate DistinctTexts(nodes: seq<(nat, bool)>) {
    forall i, j :: 0 <= i < j < |nodes| && !nodes[i].1 && !nodes[j].1 ==> nodes[i].0 != nodes[j].0
  }

  lemma DistinctTextsConcat(a: seq<(nat, bool)>, b: seq<(nat, bool)>)
    requires DistinctTexts(a) && DistinctTexts(b)
    requires forall p, q :: p in a && q in b ==> p.0 != q.0
    ensures DistinctTexts(a + b)
  {
    forall i, j | 0 <= i < j < |a + b| && !(a + b)[i].1 && !(a + b)[j].1 ensures (a + b)[i].0 != (a + b)[j].0 {
      if i < |a| <= j {
        assert a[i] in a && b[j - |a|] in b;
      }
    }
  }

  lemma {:induction false} SpansAreDistinct(ns: seq<Node>)
    requires Distinct(ns)
    ensures DistinctTexts(SpanNodes(ns))
    ensures forall p :: p in SpanNodes(ns) && !p.1 ==> p.0 !in Structure(ns)
    decreases ns, 1
  {
    if ns != [] {
      var n := ns[0];
      NodeSpansAreDistinct(n);
      SpansAreDistinct(ns[1..]);
      StructureAndTexts(ns[1..]);
      if n.Element? { StructureAndTexts(n.kids); }
      SpanNodesAreNodes(ns[1..]);
      SpansOfNode(n);
      hide SpanNodes, NodeSpanNodes, DistinctTexts, IsNocode;
      DistinctTextsConcat(NodeSpanNodes(n), SpanNodes(ns[1..]));
      SpanNodesHead(ns);
    }
  }

  lemma SpanNodesHead(ns: seq<Node>)
    requires ns != []
    ensures SpanNodes(ns) == NodeSpanNodes(ns[0]) + SpanNodes(ns[1..])
  {
  }

  lemma NodeSpansAreDistinct(n: Node)
    requires n.Element? ==> Distinct(n.kids) && n.id !in Ids(n.kids)
    ensures DistinctTexts(NodeSpanNodes(n))
    ensures n.Element? ==> forall p :: p in NodeSpanNodes(n) && !p.1 ==> p.0 != n.id && p.0 !in Structure(n.kids)
    decreases n, 0
  {
    if n.Element? {
      SpansAreDistinct(n.kids);
      SpanNodesAreNodes(n.kids);
      hide IsNocode, EndsLine;
    }
  }

  /** A document with distinct identities is fit for recombination. */
  lemma SpansFit(root: seq<Node>, pre: bool, unused: nat)
    requires Distinct(root) && forall id :: id in Ids(root) ==> id < unused
    ensures Fits(root, SpansOf(root, pre), unused)
  {
    var nodes, chunks, spans := SpanNodes(root), Chunks(root, pre), SpansOf(root, pre);
    SameLength(root, pre);
    SpansAreDistinct(root);
    StructureAndTexts(root);
    SpanNodesAreNodes(root);
    forall i | 0 <= i < |spans| ensures spans[i].id == nodes[i].0 && spans[i].element == nodes[i].1 {
      PlaceStarts(nodes, chunks, 0, i);
    }
    hide PlacedSpans, SpanNodes, Chunks, Structure, Ids, Texts, Distinct, SpansOf;
    assert forall i :: 0 <= i < |spans| ==> nodes[i] in nodes;
  }

  /** Spans and compacted decorations are fit for recombination. */
  lemma InputIsValid(root: seq<Node>, pre: bool, ds: seq<Decoration>)
    requires Covers(ds, 0, |SourceOf(root, pre)|)
    ensures Input(SourceOf(root, pre), Compact(ds, |SourceOf(root, pre)|), SpansOf(root, pre)).Valid()
  {
    var src := SourceOf(root, pre);
    SpansTile(root, pre);
    CompactKeepsStyles(ds, |src|);
    if src != [] { CompactStartsAtZero(ds, |src|); }
  }

  // ---- what the whole highlighter does ----

  lemma LangIsRegistered(reg: Registry, rank: Text -> nat, lang: Text, src: Text)
    requires RegistryOk(reg, rank)
    ensures LangFor(reg, lang, src) in reg
  {
  }

  /** The decorations of a document before compaction. */
  function DecorationsOf(reg: Registry, ghost rank: Text -> nat, lang: Text, src: Text): seq<Decoration>
    requires RegistryOk(reg, rank)
  {
    LangIsRegistered(reg, rank, lang, src);
    Decorate(reg, rank, LangFor(reg, lang, src), src, 0)
  }

  lemma DecorationsUnfold(reg: Registry, rank: Text -> nat, lang: Text, src: Text)
    requires RegistryOk(reg, rank)
    ensures LangFor(reg, lang, src) in reg
    ensures DecorationsOf(reg, rank, lang, src) == Decorate(reg, rank, LangFor(reg, lang, src), src, 0)
  {
    hide RegistryOk, Decorate;
    LangIsRegistered(reg, rank, lang, src);
  }

  /** After compaction the style in force at every position is still the style the
      language gives the character there. */
  lemma StylesInForce(reg: Registry, rank: Text -> nat, lang: Text, src: Text)
    requires RegistryOk(reg, rank)
    ensures var ds := DecorationsOf(reg, rank, lang, src);
            LangFor(reg, lang, src) in reg && forall p :: 0 <= p < |src| ==>
              Some(InForce(Compact(ds, |src|), p)) == Styles(reg, rank, LangFor(reg, lang, src), src, 0)[p]
  {
    LangIsRegistered(reg, rank, lang, src);
    hide RegistryOk, Decorate, Styles;
    var name := LangFor(reg, lang, src);
    var ds := DecorationsOf(reg, rank, lang, src);
    DecorateCovers(reg, rank, name, src, 0);
    DecorateSays(reg, rank, name, src, 0);
    CompactKeepsStyles(ds, |src|);
    forall p | 0 <= p < |src| ensures Some(InForce(Compact(ds, |src|), p)) == Styles(reg, rank, name, src, 0)[p] {
      StyledFromFirst(ds, p);
      assert StyleAt(ds, 0 + p) == Styles(reg, rank, name, src, 0)[p];
    }
  }

  /** The styles that the languages give the characters of a document's source. */
  function DocumentStyles(reg: Registry, ghost rank: Text -> nat, lang: Text, root: seq<Node>, pre: bool): seq<Option<Text>>
    requires RegistryOk(reg, rank)
  {
    LangIsRegistered(reg, rank, lang, SourceOf(root, pre));
    Styles(reg, rank, LangFor(reg, lang, SourceOf(root, pre)), SourceOf(root, pre), 0)
  }

  lemma HiddenByLanguage(reg: Registry, rank: Text -> nat, lang: Text, root: seq<Node>, pre: bool, input: Input)
    requires RegistryOk(reg, rank) && input.src == SourceOf(root, pre)
    requires input.ds == Compact(DecorationsOf(reg, rank, lang, input.src), |input.src|)
    ensures HidesText(root, input, pre, 0) <==> StylesHide(root, DocumentStyles(reg, rank, lang, root, pre), pre, 0)
  {
    hide RegistryOk, Decorate, Styles, HidesText, StylesHide, Compact;
    StylesInForce(reg, rank, lang, input.src);
    SameStylesHide(root, DocumentStyles(reg, rank, lang, root, pre), input, pre, 0);
  }

  const NOCODE := Ascii("nocode")

  /** A language that styles its whole source with one class. */
  function Uniform(style: Text): Handler {
    Custom((src: Text, at: nat) => [Decoration(at, style)])
  }

  lemma UniformIsOk(reg: Registry, rank: Text -> nat)
    requires reg == map[MARKUP := Uniform(NOCODE), CODE := Uniform(NOCODE)]
    ensures RegistryOk(reg, rank)
  {
    forall name | name in reg ensures HandlerOk(reg, rank, name) {
      forall src: Text, at: nat ensures Covers([Decoration(at, NOCODE)], at, at + |src|) {}
    }
  }

  lemma UniformStyle(reg: Registry, rank: Text -> nat, name: Text, src: Text)
    requires RegistryOk(reg, rank) && name in reg && reg[name] == Uniform(NOCODE) && src != []
    ensures Styles(reg, rank, name, src, 0)[0] == Some(NOCODE)
  {
    hide RegistryOk;
    var ds := [Decoration(0, NOCODE)];
    assert ds[|ds|-1].pos <= 0;
    assert StyleAt(ds, 0) == Some(NOCODE);
  }

  lemma NocodeHides()
    ensures HiddenBy(Some(NOCODE)) && !IsNocode([])
  {
    assert NOCODE[0..6] == NOCODE;
    assert NocodeAt(NOCODE, 0);
  }

  lemma SourceOfLetter(root: seq<Node>, kids: seq<Node>)
    requires kids == [Chars(1, [97])] && root == [Element(0, Ascii("pre"), [], kids)]
    ensures SourceOf(root, true) == [97] && Distinct(root) && Length(kids[0], true) == 1
  {
    hide EndsLine, IsNocode, Raw, Normal;
    var letter: Text := [97];
    assert kids[1..] == [] && root[1..] == [];
    LetterIsNormal(kids[0]);
    LetterIsDistinct(root, kids);
    RawOfText(1, letter, true);
    NocodeHides();
    PreEndsNoLine();
    RawOfElement(root[0], true);
    assert root == [root[0]] && letter + [] == letter;
    assert Raw(root, true) == letter;
  }

  lemma LetterIsNormal(n: Node)
    requires n == Chars(1, [97])
    ensures Normal([97], true) == [97] && Length(n, true) == 1
  {}

  lemma LetterIsDistinct(root: seq<Node>, kids: seq<Node>)
    requires kids == [Chars(1, [97])] && root == [Element(0, Ascii("pre"), [], kids)]
    ensures Distinct(root)
  {
    var none: seq<Node> := [];
    assert kids[1..] == none && root[1..] == none;
    assert Distinct(none) && Ids(none) == {};
    assert Distinct(kids) && Ids(kids) == {1};
  }

  lemma PreEndsNoLine()
    ensures !EndsLine(Ascii("pre"))
  {
    assert |ToLowerAscii(Ascii("pre"))| == 3;
  }

  /** The class `nocode` is one the highlighter offers for use. With a language that
      gives it as a style, the text of `<pre>a</pre>` is lost. */
  lemma NocodeStyleLosesText(rank: Text -> nat)
    ensures var reg: Registry := map[MARKUP := Uniform(NOCODE), CODE := Uniform(NOCODE)];
            var root := [Element(0, Ascii("pre"), [], [Chars(1, [97])])];
            && RegistryOk(reg, rank) && Distinct(root)
            && StylesHide(root, DocumentStyles(reg, rank, [], root, true), true, 0)
  {
    var reg: Registry := map[MARKUP := Uniform(NOCODE), CODE := Uniform(NOCODE)];
    var kids := [Chars(1, [97])];
    var root := [Element(0, Ascii("pre"), [], kids)];
    UniformIsOk(reg, rank);
    SourceOfLetter(root, kids);
    LangIsRegistered(reg, rank, [], [97]);
    UniformStyle(reg, rank, LangFor(reg, [], [97]), [97]);
    NocodeHides();
    assert UnixBreaks([97]) == [97];
    assert !IsNocode([]);
    assert kids[1..] == [] && root[1..] == [];
    assert NodeStylesHide(kids[0], DocumentStyles(reg, rank, [], root, true), true, 0);
    assert StylesHide(kids, DocumentStyles(reg, rank, [], root, true), true, 0);
  }

  method ReadPairs(c: array<Cell>, n: nat, ghost ds: seq<Decoration>) returns (out: seq<Decoration>)
    requires n <= c.Length && IsFlat(c[..n], ds)
    ensures out == ds
  {
    out := [];
    ghost var k := 0;
    var e := 0;
    while e < n
      invariant e == 2 * k <= n && out == ds[..k]
    {
      assert c[..n][2*k] == c[e] && c[..n][2*k+1] == c[e+1] && c[e] == Pos(ds[k].pos) && c[e+1] == Style(ds[k].style);
      out := out + [Decoration(c[e].p, c[e+1].s)];
      e, k := e + 2, k + 1;
    }
  }

  /** Decorates a source and compacts the result, as flat lists. */
  method DecorateAndCompact(reg: Registry, ghost rank: Text -> nat, lang: Text, src: Text) returns (ds: seq<Decoration>)
    requires RegistryOk(reg, rank)
    ensures ds == Compact(DecorationsOf(reg, rank, lang, src), |src|)
  {
    LangIsRegistered(reg, rank, lang, src);
    hide RegistryOk, Decorate, LangFor;
    var k := DecorateSource(reg, rank, LangFor(reg, lang, src), src, 0);
    ghost var all := DecorationsOf(reg, rank, lang, src);
    var c := new Cell[|k| + 1](i => if 0 <= i < |k| then k[i] else Pos(0));
    assert c[..|k|] == k;
    var n := CompactInPlace(c, |k|, |src|, all);
    ds := ReadPairs(c, n, Compact(all, |src|));
  }

  /** What the loop's result says about the document it leaves. */
  lemma RecombinedDocument(root: seq<Node>, pre: bool, ds: seq<Decoration>, repl: map<nat, seq<Node>>, unused0: nat, unused: nat)
    requires Covers(ds, 0, |SourceOf(root, pre)|) && Distinct(root)
    requires var input := Input(SourceOf(root, pre), Compact(ds, |SourceOf(root, pre)|), SpansOf(root, pre));
             && input.Valid() && Owned(repl, input.spans, |input.spans|, unused0, unused)
             && forall q :: 0 <= q < |input.spans| ==> input.Done(repl, q)
    ensures var input := Input(SourceOf(root, pre), Compact(ds, |SourceOf(root, pre)|), SpansOf(root, pre));
            Rebuilt(root, repl, input, pre, 0, true)
  {
    var input := Input(SourceOf(root, pre), Compact(ds, |SourceOf(root, pre)|), SpansOf(root, pre));
    var nodes, chunks := SpanNodes(root), Chunks(root, pre);
    SameLength(root, pre);
    SpansTile(root, pre);
    AllDoneFromDone(repl, input, nodes, chunks, 0);
    assert nodes[0..] == nodes && chunks[0..] == chunks && chunks[..0] == [];
    forall k | k in repl && k in Ids(root) ensures (k, false) in nodes {
      var q :| 0 <= q < |input.spans| && !input.spans[q].element && input.spans[q].id == k;
      PlaceStarts(nodes, chunks, 0, q);
    }
    DoneIsRebuilt(root, repl, input, pre, 0);
  }

  /** `applyDecorator`. The characters of the document it leaves are those expected:
      each source character in a `span` whose class is the style its language gives
      it, everything else as it was. Extracting again gives the same text, or that
      text without the final newline, if and only if the languages give no character
      of it a style with the class that hides text from the extraction. */
  method ApplyDecorator(doc: Document, reg: Registry, ghost rank: Text -> nat, lang: Text, pre: bool)
    returns (src: Text, spans: seq<Span>, ds: seq<Decoration>)
    requires RegistryOk(reg, rank)
    requires |doc.root| == 1 && Distinct(doc.root) && forall id :: id in Ids(doc.root) ==> id < doc.unused
    modifies doc
    ensures src == SourceOf(old(doc.root), pre) && spans == SpansOf(old(doc.root), pre)
    ensures ds == Compact(DecorationsOf(reg, rank, lang, src), |src|)
    ensures Glyphs(doc.root, []) == Expected(old(doc.root), [], Input(src, ds, spans), pre, 0, true)
    ensures var expected := TextAfter(old(doc.root), Input(src, ds, spans), pre, 0);
            && (expected == Raw(old(doc.root), pre) || expected == src)
            && (Raw(doc.root, pre) == expected
                <==> !StylesHide(old(doc.root), DocumentStyles(reg, rank, lang, old(doc.root), pre), pre, 0))
  {
    hide *;
    ghost var root := doc.root;
    src, spans := ExtractSourceSpans(doc.root[0], pre);
    assert root == [doc.root[0]];
    ds := DecorateAndCompact(reg, rank, lang, src);
    ghost var all := DecorationsOf(reg, rank, lang, src);
    DecorationsUnfold(reg, rank, lang, src);
    DecorateCovers(reg, rank, LangFor(reg, lang, src), src, 0);
    var input := Input(src, ds, spans);
    InputIsValid(root, pre, all);
    SpansFit(root, pre, doc.unused);
    var recombiner := new Recombiner(doc, input);
    recombiner.Run();
    Result(root, pre, all, recombiner.repl, recombiner.unused0, doc.unused);
    HiddenByLanguage(reg, rank, lang, root, pre, input);
  }

  lemma Result(root: seq<Node>, pre: bool, ds: seq<Decoration>, repl: map<nat, seq<Node>>, unused0: nat, unused: nat)
    requires Covers(ds, 0, |SourceOf(root, pre)|) && Distinct(root)
    requires var input := Input(SourceOf(root, pre), Compact(ds, |SourceOf(root, pre)|), SpansOf(root, pre));
             && input.Valid() && Owned(repl, input.spans, |input.spans|, unused0, unused)
             && forall q :: 0 <= q < |input.spans| ==> input.Done(repl, q)
    ensures var input := Input(SourceOf(root, pre), Compact(ds, |SourceOf(root, pre)|), SpansOf(root, pre));
            && Glyphs(Rebuild(root, repl), []) == Expected(root, [], input, pre, 0, true)
            && (TextAfter(root, input, pre, 0) == Raw(root, pre) || TextAfter(root, input, pre, 0) == input.src)
            && (Raw(Rebuild(root, repl), pre) == TextAfter(root, input, pre, 0) <==> !HidesText(root, input, pre, 0))
  {
    hide Glyphs, Expected, Rebuilt, TextAfter, HidesText, Compact, Covers, Distinct, Owned, Rebuild;
    var src := SourceOf(root, pre);
    var input := Input(src, Compact(ds, |src|), SpansOf(root, pre));
    RecombinedDocument(root, pre, ds, repl, unused0, unused);
    GlyphsOfRebuilt(root, repl, [], input, pre, 0, true);
    var full := Raw(root, pre);
    SpansTile(root, pre);
    assert full[0..0+|full|] == full;
    TextAfterKept(root, input, pre, 0, full);
    TextOfRebuilt(root, repl, input, pre, 0, full);
  }
}
