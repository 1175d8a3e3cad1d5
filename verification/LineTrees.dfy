/** Line breaks in a forest: where the first one is, what stands left and right of it,
    and what a forest says, character by character, with every character's ancestors. */
module LineTrees {
  import opened Prelude
  import opened Dom

  const BR: Text := [98, 114]

  // ---- line breaks ----

  /** Where the first match of `/\r\n?|\n/` starts, or the length of the text. */
  function BreakStart(v: Text): (k: nat)
    ensures k <= |v|
    ensures k < |v| ==> v[k] == NEWLINE || v[k] == RETURN
    ensures forall i :: 0 <= i < k ==> v[i] != NEWLINE && v[i] != RETURN
  {
    if v == [] || v[0] == NEWLINE || v[0] == RETURN then 0 else 1 + BreakStart(v[1..])
  }

  /** Where the text goes on after its first break. */
  function BreakEnd(v: Text): (k: nat)
    requires BreakStart(v) < |v|
    ensures BreakStart(v) < k <= |v|
  {
    var k := BreakStart(v);
    if v[k] == RETURN && k + 1 < |v| && v[k+1] == NEWLINE then k + 2 else k + 1
  }

  predicate HasBreak(v: Text) { BreakStart(v) < |v| }

  /** The walk stops at this node itself: a `br` in lower case, or, in
      preformatted text, a text with a break. */
  predicate Breaks(n: Node, pre: bool) {
    match n
    case Element(_, name, cls, _) => !IsNocode(cls) && name == BR
    case Chars(_, value) => pre && HasBreak(value)
    case Other(_) => false
  }

  /** The walk looks at the children of this node. */
  predicate Entered(n: Node) { n.Element? && !IsNocode(n.cls) && n.name != BR }

  // ---- nodes by path ----

  /** A path leads to a node: an index at each level, entered elements on the way. */
  predicate Leads(ns: seq<Node>, path: seq<nat>) {
    && path != [] && path[0] < |ns|
    && (|path| > 1 ==> ns[path[0]].Element? && Leads(ns[path[0]].kids, path[1..]))
  }

  function At(ns: seq<Node>, path: seq<nat>): Node
    requires Leads(ns, path)
  {
    if |path| == 1 then ns[path[0]] else At(ns[path[0]].kids, path[1..])
  }

  /** The path of the first node the walk stops at. */
  function FirstBreak(ns: seq<Node>, pre: bool, k: nat): (p: Option<seq<nat>>)
    requires k <= |ns|
    ensures p.Some? ==> Leads(ns, p.value)
    decreases ns, |ns| - k
  {
    if k == |ns| then None
    else
      var p := FirstBreakIn(ns[k], pre);
      if p.Some? then Some([k] + p.value) else FirstBreak(ns, pre, k + 1)
  }

  /** The same within one node, relative to it. */
  function FirstBreakIn(n: Node, pre: bool): (p: Option<seq<nat>>)
    ensures p.Some? && p.value != [] ==> n.Element? && Leads(n.kids, p.value)
    decreases n, 0
  {
    if Breaks(n, pre) then Some([]) else if Entered(n) then FirstBreak(n.kids, pre, 0) else None
  }

  // ---- cutting ----

  /** What stays in front: the node at the path becomes `before`, and nothing
      after it stays at any level. */
  function LeftPart(ns: seq<Node>, path: seq<nat>, before: seq<Node>): seq<Node>
    requires Leads(ns, path)
  {
    var k := path[0];
    ns[..k] + if |path| == 1 then before else [ns[k].(kids := LeftPart(ns[k].kids, path[1..], before))]
  }

  /** What goes behind: `after`, and everything after the node, in copies of its
      ancestors that are made only where something follows. Copies are numbered
      from `unused` on. */
  function RightPart(ns: seq<Node>, path: seq<nat>, after: seq<Node>, unused: nat): seq<Node>
    requires Leads(ns, path)
  {
    var k := path[0];
    (if |path| == 1 then after
     else
       var r := RightPart(ns[k].kids, path[1..], after, unused + 1);
       if r == [] then [] else [ns[k].(id := unused, kids := r)])
    + ns[k+1..]
  }

  /** The text in front of the break, unless it is empty; a `br` goes. */
  function Before(n: Node): seq<Node> {
    if n.Chars? && BreakStart(n.value) > 0 then [n.(value := n.value[..BreakStart(n.value)])] else []
  }

  /** The text behind the break, unless it is empty. */
  function After(n: Node, unused: nat): seq<Node>
    requires n.Chars? ==> HasBreak(n.value)
  {
    if n.Chars? && BreakEnd(n.value) < |n.value| then [Chars(unused, n.value[BreakEnd(n.value)..])] else []
  }

  // ---- what a tree says, line by line ----

  /** A character or an untouched node under its chain of elements, or a break. */
  datatype Event = Unit(unit: CodeUnit, chain: seq<Tag>) | Kept(node: Node, chain: seq<Tag>) | Break

  function TextEvents(v: Text, chain: seq<Tag>, pre: bool): seq<Event>
    decreases |v|
  {
    if v == [] then []
    else if pre && (v[0] == NEWLINE || v[0] == RETURN) then
      [Break] + TextEvents(v[BreakEnd(v)..], chain, pre)
    else [Unit(v[0], chain)] + TextEvents(v[1..], chain, pre)
  }

  function Events(ns: seq<Node>, chain: seq<Tag>, pre: bool): seq<Event>
    decreases ns, 0
  {
    if ns == [] then [] else NodeEvents(ns[0], chain, pre) + Events(ns[1..], chain, pre)
  }

  function NodeEvents(n: Node, chain: seq<Tag>, pre: bool): seq<Event>
    decreases n, 1
  {
    match n
    case Element(_, name, cls, kids) =>
      if IsNocode(cls) then [Kept(n, chain)]
      else if name == BR then [Break]
      else Events(kids, chain + [Tag(name, cls)], pre)
    case Chars(_, value) => TextEvents(value, chain, pre)
    case Other(_) => [Kept(n, chain)]
  }

  lemma {:induction false} EventsAppend(a: seq<Node>, b: seq<Node>, chain: seq<Tag>, pre: bool)
    ensures Events(a + b, chain, pre) == Events(a, chain, pre) + Events(b, chain, pre)
  {
    hide NodeEvents;
    if a == [] {
      assert a + b == b;
    } else {
      assert (a + b)[1..] == a[1..] + b && (a + b)[0] == a[0];
      EventsAppend(a[1..], b, chain, pre);
    }
  }

  lemma EventsOfOne(n: Node, chain: seq<Tag>, pre: bool)
    ensures Events([n], chain, pre) == NodeEvents(n, chain, pre)
  {
    assert [n][1..] == [];
  }

  /** The parts of a forest around its `k`-th node. */
  lemma EventsAround(ns: seq<Node>, k: nat, chain: seq<Tag>, pre: bool)
    requires k < |ns|
    ensures Events(ns, chain, pre)
         == Events(ns[..k], chain, pre) + NodeEvents(ns[k], chain, pre) + Events(ns[k+1..], chain, pre)
  {
    hide NodeEvents, Events;
    assert ns == ns[..k] + [ns[k]] + ns[k+1..];
    EventsAppend(ns[..k] + [ns[k]], ns[k+1..], chain, pre);
    EventsAppend(ns[..k], [ns[k]], chain, pre);
    EventsOfOne(ns[k], chain, pre);
  }

  // ---- no break in front of the first one ----

  lemma {:induction false} PlainText(v: Text, chain: seq<Tag>, pre: bool)
    requires pre ==> !HasBreak(v)
    ensures Break !in TextEvents(v, chain, pre)
  {
    if v != [] { PlainText(v[1..], chain, pre); }
  }

  lemma {:induction false} NoBreakFrom(ns: seq<Node>, pre: bool, k: nat, chain: seq<Tag>)
    requires k <= |ns| && FirstBreak(ns, pre, k) == None
    ensures Break !in Events(ns[k..], chain, pre)
    decreases ns, |ns| - k
  {
    if k < |ns| {
      assert ns[k..][1..] == ns[k+1..] && ns[k..][0] == ns[k];
      NoBreakIn(ns[k], pre, chain);
      NoBreakFrom(ns, pre, k + 1, chain);
    }
  }

  lemma {:induction false} NoBreakIn(n: Node, pre: bool, chain: seq<Tag>)
    requires FirstBreakIn(n, pre) == None
    ensures Break !in NodeEvents(n, chain, pre)
    decreases n, 0
  {
    if Entered(n) {
      NoBreakFrom(n.kids, pre, 0, chain + [Tag(n.name, n.cls)]);
      assert n.kids[0..] == n.kids;
    } else if n.Chars? {
      PlainText(n.value, chain, pre);
    }
  }

  /** Nothing in front of the first break breaks. */
  lemma {:induction false} NoBreakBefore(ns: seq<Node>, pre: bool, k: nat, p: seq<nat>, chain: seq<Tag>)
    requires k <= |ns| && FirstBreak(ns, pre, k) == Some(p)
    ensures k <= p[0] < |ns| && FirstBreakIn(ns[p[0]], pre) == Some(p[1..])
    ensures Break !in Events(ns[k..p[0]], chain, pre)
    decreases |ns| - k
  {
    if FirstBreakIn(ns[k], pre).None? {
      NoBreakBefore(ns, pre, k + 1, p, chain);
      NoBreakIn(ns[k], pre, chain);
      assert ns[k..p[0]][1..] == ns[k+1..p[0]] && ns[k..p[0]][0] == ns[k];
    } else {
      assert p == [k] + FirstBreakIn(ns[k], pre).value;
      assert p[1..] == FirstBreakIn(ns[k], pre).value;
      assert ns[k..p[0]] == [];
    }
  }

  // ---- a cut loses only the break ----

  lemma {:induction false} TextAroundBreak(v: Text, chain: seq<Tag>)
    requires HasBreak(v)
    ensures TextEvents(v, chain, true)
         == TextEvents(v[..BreakStart(v)], chain, true) + [Break] + TextEvents(v[BreakEnd(v)..], chain, true)
    ensures Break !in TextEvents(v[..BreakStart(v)], chain, true)
  {
    if BreakStart(v) > 0 {
      TextAroundBreak(v[1..], chain);
      assert v[..BreakStart(v)][1..] == v[1..][..BreakStart(v[1..])];
      assert v[1..][BreakEnd(v[1..])..] == v[BreakEnd(v)..];
    }
  }

  /** At the node the walk stops at: what is kept in front, a break, what goes behind. */
  lemma NodeAroundBreak(n: Node, pre: bool, chain: seq<Tag>, unused: nat)
    requires Breaks(n, pre)
    ensures NodeEvents(n, chain, pre) == Events(Before(n), chain, pre) + [Break] + Events(After(n, unused), chain, pre)
    ensures Break !in Events(Before(n), chain, pre)
  {
    if n.Chars? {
      TextAroundBreak(n.value, chain);
      if Before(n) != [] { EventsOfOne(Before(n)[0], chain, pre); }
      if After(n, unused) != [] { EventsOfOne(After(n, unused)[0], chain, pre); }
    }
  }

  /** If a node says what `before`, a break, and `after` say, its forest can be cut there. */
  lemma CutHere(ns: seq<Node>, k: nat, before: seq<Node>, after: seq<Node>, chain: seq<Tag>, pre: bool)
    requires k < |ns| && Break !in Events(ns[..k], chain, pre) && Break !in Events(before, chain, pre)
    requires NodeEvents(ns[k], chain, pre) == Events(before, chain, pre) + [Break] + Events(after, chain, pre)
    ensures Events(ns, chain, pre)
         == Events(ns[..k] + before, chain, pre) + [Break] + Events(after + ns[k+1..], chain, pre)
    ensures Break !in Events(ns[..k] + before, chain, pre)
  {
    hide Events, NodeEvents;
    EventsAround(ns, k, chain, pre);
    EventsAppend(ns[..k], before, chain, pre);
    EventsAppend(after, ns[k+1..], chain, pre);
    ReassociateAround(Events(ns[..k], chain, pre), Events(before, chain, pre), Events(after, chain, pre), Events(ns[k+1..], chain, pre));
  }

  lemma ReassociateAround(a: seq<Event>, b: seq<Event>, c: seq<Event>, d: seq<Event>)
    ensures a + (b + [Break] + c) + d == (a + b) + [Break] + (c + d)
  {
  }

  /** An entered element around a cut: both halves keep its label. */
  lemma ElementAroundCut(m: Node, l: seq<Node>, r: seq<Node>, chain: seq<Tag>, pre: bool, unused: nat)
    requires Entered(m)
    requires var inner := chain + [Tag(m.name, m.cls)];
             && Events(m.kids, inner, pre) == Events(l, inner, pre) + [Break] + Events(r, inner, pre)
             && Break !in Events(l, inner, pre)
    ensures var before, after := [m.(kids := l)], if r == [] then [] else [m.(id := unused, kids := r)];
            && NodeEvents(m, chain, pre) == Events(before, chain, pre) + [Break] + Events(after, chain, pre)
            && Break !in Events(before, chain, pre)
  {
    EventsOfOne(m.(kids := l), chain, pre);
    if r != [] { EventsOfOne(m.(id := unused, kids := r), chain, pre); }
  }

  /** Cutting at the first break: the two parts, with a break between them, say
      what the forest said, and the first part has no break. */
  lemma {:induction false} CutKeepsEvents(ns: seq<Node>, pre: bool, p: seq<nat>, chain: seq<Tag>, unused: nat, textId: nat)
    requires FirstBreak(ns, pre, 0) == Some(p)
    ensures Breaks(At(ns, p), pre)
    ensures Events(ns, chain, pre)
         == Events(LeftPart(ns, p, Before(At(ns, p))), chain, pre) + [Break]
            + Events(RightPart(ns, p, After(At(ns, p), textId), unused), chain, pre)
    ensures Break !in Events(LeftPart(ns, p, Before(At(ns, p))), chain, pre)
    decreases |p|
  {
    hide Events, NodeEvents, Entered, FirstBreak, Before, HasBreak;
    NoBreakBefore(ns, pre, 0, p, chain);
    assert ns[0..p[0]] == ns[..p[0]];
    var k, m := p[0], ns[p[0]];
    if |p| == 1 {
      NodeAroundBreak(m, pre, chain, textId);
      CutHere(ns, k, Before(m), After(m, textId), chain, pre);
    } else {
      CutKeepsEvents(m.kids, pre, p[1..], chain + [Tag(m.name, m.cls)], unused + 1, textId);
      var n := At(ns, p);
      var l, r := LeftPart(m.kids, p[1..], Before(n)), RightPart(m.kids, p[1..], After(n, textId), unused + 1);
      ElementAroundCut(m, l, r, chain, pre, unused);
      CutHere(ns, k, [m.(kids := l)], if r == [] then [] else [m.(id := unused, kids := r)], chain, pre);
    }
  }

  // ---- the final break ----

  /** The last thing in the forest is a break: it has no line behind it. */
  predicate EndsWithBreak(ns: seq<Node>, pre: bool)
    decreases ns, 0
  {
    ns != [] && NodeEndsWithBreak(ns[|ns|-1], pre)
  }

  predicate NodeEndsWithBreak(n: Node, pre: bool)
    decreases n, 1
  {
    match n
    case Element(_, name, cls, kids) => !IsNocode(cls) && (name == BR || EndsWithBreak(kids, pre))
    case Chars(_, v) => pre && v != [] && (v[|v|-1] == NEWLINE || v[|v|-1] == RETURN)
    case Other(_) => false
  }

  lemma {:induction false} FinalBreakIsABreak(ns: seq<Node>, pre: bool, k: nat)
    requires k <= |ns| && FirstBreak(ns, pre, k) == None
    ensures k < |ns| ==> !EndsWithBreak(ns, pre)
    decreases ns, |ns| - k
  {
    if k + 1 < |ns| {
      FinalBreakIsABreak(ns, pre, k + 1);
    } else if k < |ns| {
      var n := ns[k];
      if Entered(n) { FinalBreakIsABreak(n.kids, pre, 0); }
      assert FirstBreakIn(n, pre) == None;
      if n.Chars? && pre && n.value != [] {
        var last := n.value[|n.value|-1];
        assert BreakStart(n.value) == |n.value|;
        assert last != NEWLINE && last != RETURN;
      }
      assert !NodeEndsWithBreak(n, pre);
    }
  }

  /** What stays behind a break in a text ends as the text ends. */
  lemma TextEndsAsBefore(n: Node, textId: nat)
    requires n.Chars? && HasBreak(n.value)
    ensures After(n, textId) == [] ==> NodeEndsWithBreak(n, true)
    ensures After(n, textId) != [] ==> EndsWithBreak(After(n, textId), true) == NodeEndsWithBreak(n, true)
  {
  }

  /** A cut leaves nothing behind exactly when the break is the last thing there
      is, and what it leaves ends as the forest ended. */
  lemma {:induction false} CutKeepsEnd(ns: seq<Node>, pre: bool, p: seq<nat>, unused: nat, textId: nat)
    requires FirstBreak(ns, pre, 0) == Some(p)
    ensures Breaks(At(ns, p), pre)
    ensures var r := RightPart(ns, p, After(At(ns, p), textId), unused);
            EndsWithBreak(ns, pre) == (r == [] || EndsWithBreak(r, pre))
    decreases |p|
  {
    hide FirstBreak, After, HasBreak, LeftPart;
    NoBreakBefore(ns, pre, 0, p, []);
    var m := ns[p[0]];
    if |p| == 1 {
      if m.Chars? { TextEndsAsBefore(m, textId); } else { assert After(m, textId) == [] by { NothingAfter(m, textId); } }
    } else {
      CutKeepsEnd(m.kids, pre, p[1..], unused + 1, textId);
    }
    var r := RightPart(ns, p, After(At(ns, p), textId), unused);
    if p[0] + 1 < |ns| { assert r[|r|-1] == ns[|ns|-1]; }
  }

  lemma NothingAfter(n: Node, textId: nat)
    requires !n.Chars?
    ensures After(n, textId) == []
  {
  }
}
