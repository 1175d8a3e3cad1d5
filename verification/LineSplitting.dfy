/** Numbering lines: the children of a list item are walked, and at the first line
    break everything behind it moves to a new item, which is walked in turn. */
module LineSplitting {
  import opened Prelude
  import opened Dom
  import opened LineTrees
  import opened LineTexts
  import Extraction = SpanExtraction

  // ---- editing a forest at a path ----

  /** The forest with the node at the path replaced by a list. */
  function ReplaceAt(ns: seq<Node>, path: seq<nat>, list: seq<Node>): seq<Node>
    requires Leads(ns, path)
  {
    var k := path[0];
    ns[..k] + (if |path| == 1 then list else [ns[k].(kids := ReplaceAt(ns[k].kids, path[1..], list))]) + ns[k+1..]
  }

  /** The children below a path; the forest itself below the empty path. */
  predicate LeadsBelow(ns: seq<Node>, path: seq<nat>) {
    path != [] ==> Leads(ns, path) && At(ns, path).Element?
  }

  function Below(ns: seq<Node>, path: seq<nat>): seq<Node>
    requires LeadsBelow(ns, path)
  {
    if path == [] then ns else At(ns, path).kids
  }

  predicate HasNext(ns: seq<Node>, path: seq<nat>)
    requires Leads(ns, path)
  {
    if |path| == 1 then path[0] + 1 < |ns| else HasNext(ns[path[0]].kids, path[1..])
  }

  lemma {:induction false} ReplaceThenCut(ns: seq<Node>, path: seq<nat>, x: Node, after: seq<Node>, before: seq<Node>, unused: nat)
    requires Leads(ns, path)
    ensures var ns' := ReplaceAt(ns, path, [x] + after);
            && Leads(ns', path) && At(ns', path) == x
            && LeftPart(ns', path, before) == LeftPart(ns, path, before)
            && RightPart(ns', path, [], unused) == RightPart(ns, path, after, unused)
    decreases |path|
  {
    var k := path[0];
    var ns' := ReplaceAt(ns, path, [x] + after);
    assert ns'[..k] == ns[..k];
    if |path| > 1 {
      ReplaceThenCut(ns[k].kids, path[1..], x, after, before, unused + 1);
      assert ns'[k+1..] == ns[k+1..];
    } else {
      assert ns'[k+1..] == after + ns[k+1..];
      assert [] + ns'[k+1..] == ns'[k+1..];
    }
  }

  lemma {:induction false} CutThenRemove(ns: seq<Node>, path: seq<nat>, x: Node)
    requires Leads(ns, path)
    ensures var l := LeftPart(ns, path, [x]);
            Leads(l, path) && ReplaceAt(l, path, []) == LeftPart(ns, path, [])
    decreases |path|
  {
    var k := path[0];
    var l := LeftPart(ns, path, [x]);
    assert l[..k] == ns[..k] && l[k+1..] == [];
    if |path| > 1 { CutThenRemove(ns[k].kids, path[1..], x); }
  }

  /** One step up when nothing follows on a level. */
  lemma {:induction false} Climb(ns: seq<Node>, path: seq<nat>, unused: nat)
    requires Leads(ns, path) && !HasNext(ns, path)
    ensures var up := path[..|path|-1];
            if up == [] then LeftPart(ns, path, [At(ns, path)]) == ns && RightPart(ns, path, [], unused) == []
            else && Leads(ns, up)
                 && LeftPart(ns, path, [At(ns, path)]) == LeftPart(ns, up, [At(ns, up)])
                 && RightPart(ns, path, [], unused) == RightPart(ns, up, [], unused)
    decreases |path|
  {
    var k := path[0];
    if |path| > 1 {
      Climb(ns[k].kids, path[1..], unused + 1);
      assert path[..|path|-1][1..] == path[1..][..|path|-2];
      if |path| == 2 {
        assert [ns[k].(kids := ns[k].kids)] == [ns[k]];
      }
    }
  }

  lemma {:induction false} Extend(ns: seq<Node>, path: seq<nat>, p: seq<nat>)
    requires p != [] && LeadsBelow(ns, path) && Leads(Below(ns, path), p)
    ensures Leads(ns, path + p) && At(ns, path + p) == At(Below(ns, path), p)
    decreases |path|
  {
    if path == [] {
      assert path + p == p;
    } else {
      assert (path + p)[1..] == path[1..] + p;
      if |path| > 1 {
        Extend(ns[path[0]].kids, path[1..], p);
      } else {
        assert path[1..] + p == p;
      }
    }
  }

  /** After a cut below the `k`-th child of a node, that node has no child after it. */
  lemma {:induction false} NothingBehind(ns: seq<Node>, path: seq<nat>, k: nat, p: seq<nat>, before: seq<Node>)
    requires LeadsBelow(ns, path) && Leads(ns, path + [k] + p) && |before| <= 1
    ensures var l := LeftPart(ns, path + [k] + p, before);
            LeadsBelow(l, path) && |Below(l, path)| <= k + 1
    decreases |path|
  {
    var q := path + [k] + p;
    if path == [] {
      assert q[0] == k;
    } else {
      assert q[1..] == path[1..] + [k] + p;
      var m := ns[path[0]];
      if |path| > 1 {
        NothingBehind(m.kids, path[1..], k, p, before);
      } else {
        assert path[1..] == [];
        assert LeadsBelow(m.kids, []);
        NothingBehind(m.kids, [], k, p, before);
      }
      var l := LeftPart(ns, q, before);
      assert l[path[0]] == m.(kids := LeftPart(m.kids, q[1..], before));
    }
  }

  // ---- cutting the list of items ----

  function Pushed(items: seq<seq<Node>>, i: nat, left: seq<Node>, right: seq<Node>): seq<seq<Node>>
    requires i < |items|
  {
    items[i := left] + (if right == [] then [] else [right])
  }

  /** The items after the walk has stopped at the node `p` of item `i`. */
  function CutItem(items: seq<seq<Node>>, i: nat, p: seq<nat>, unused: nat): seq<seq<Node>>
    requires i < |items| && Leads(items[i], p)
    requires At(items[i], p).Chars? ==> HasBreak(At(items[i], p).value)
  {
    var n := At(items[i], p);
    Pushed(items, i, LeftPart(items[i], p, Before(n)), RightPart(items[i], p, After(n, unused), unused + 1))
  }

  lemma CutLeavesNothing(items: seq<seq<Node>>, i: nat, path: seq<nat>, k: nat, p: seq<nat>, unused: nat, pre: bool)
    requires i < |items| && LeadsBelow(items[i], path) && Leads(items[i], path + [k] + p)
    requires Breaks(At(items[i], path + [k] + p), pre)
    ensures var items' := CutItem(items, i, path + [k] + p, unused);
            i < |items'| && LeadsBelow(items'[i], path) && |Below(items'[i], path)| <= k + 1
    ensures path + [k] + p == path + ([k] + p)
  {
    hide LeftPart, RightPart, Below, LeadsBelow, Leads, At, After, Breaks, HasBreak, BreakStart;
    BreaksHere(At(items[i], path + [k] + p), pre);
    NothingBehind(items[i], path, k, p, Before(At(items[i], path + [k] + p)));
  }

  lemma BreaksHere(n: Node, pre: bool)
    requires Breaks(n, pre)
    ensures n.Chars? ==> HasBreak(n.value)
  {}

  lemma ChildOf(ns: seq<Node>, path: seq<nat>, k: nat)
    requires LeadsBelow(ns, path) && k < |Below(ns, path)|
    ensures Leads(ns, path + [k]) && At(ns, path + [k]) == Below(ns, path)[k]
  {
    Extend(ns, path, [k]);
  }

  /** The work list of the numbering: the children of each list item, and the first
      unused identity. `pre` says that the text is preformatted. */
  class LineSplitter {
    const pre: bool
    var items: seq<seq<Node>>
    var unused: nat

    constructor (ns: seq<Node>, pre: bool, unused: nat)
      ensures items == [ns] && this.pre == pre && this.unused == unused
    {
      items, this.pre, this.unused := [ns], pre, unused;
    }

    /** `breakLeftOf`, from the item down to the limit: everything from the limit
        on, in copies of the limit's ancestors. The siblings behind are moved one
        by one. */
    method BreakLeftOf(ns: seq<Node>, q: seq<nat>, copyId: nat) returns (left: seq<Node>, right: seq<Node>)
      requires Leads(ns, q) && HasNext(ns, q)
      ensures left == LeftPart(ns, q, [At(ns, q)]) && right == RightPart(ns, q, [], copyId) && right != []
      decreases |q|
    {
      var k := q[0];
      if |q| == 1 {
        left, right := ns[..k+1], [];
      } else {
        var l, r := BreakLeftOf(ns[k].kids, q[1..], copyId + 1);
        left, right := ns[..k] + [ns[k].(kids := l)], [ns[k].(id := copyId, kids := r)];
      }
      ghost var clone := right;
      for i := k + 1 to |ns|
        invariant right == clone + ns[k+1..i]
      {
        right := right + [ns[i]];
      }
    }

    /** `breakAfter`: climb to the first level where something follows; if there is
        one, what follows moves to a new item. */
    method BreakAfter(i: nat, path: seq<nat>)
      requires i < |items| && Leads(items[i], path)
      modifies this`items
      ensures items == Pushed(old(items), i, LeftPart(old(items[i]), path, [At(old(items[i]), path)]),
                              RightPart(old(items[i]), path, [], unused + 1))
    {
      hide LeftPart, RightPart, At, HasNext;
      var ns, q := items[i], path;
      while q != [] && !HasNext(ns, q)
        invariant items == old(items)
        invariant q != [] ==> Leads(ns, q)
        invariant q != [] ==> LeftPart(ns, q, [At(ns, q)]) == LeftPart(ns, path, [At(ns, path)])
                              && RightPart(ns, q, [], unused + 1) == RightPart(ns, path, [], unused + 1)
        invariant q == [] ==> LeftPart(ns, path, [At(ns, path)]) == ns && RightPart(ns, path, [], unused + 1) == []
        decreases |q|
      {
        Climb(ns, q, unused + 1);
        q := q[..|q|-1];
      }
      if q == [] {
        assert items[i := ns] == items;
        return;
      }
      var left, right := BreakLeftOf(ns, q, unused + 1);
      items := items[i := left] + [right];
    }

    /** The walk at a `br`. */
    method BreakAtElement(i: nat, path: seq<nat>)
      requires i < |items| && Leads(items[i], path) && At(items[i], path).Element?
      modifies this`items
      ensures items == CutItem(old(items), i, path, unused)
    {
      hide LeftPart, RightPart, ReplaceAt, Leads;
      ghost var ns := items[i];
      BreakAfter(i, path);
      CutThenRemove(ns, path, At(ns, path));
      items := items[i := ReplaceAt(items[i], path, [])];
    }

    /** The walk at a text with a break. */
    method BreakAtText(i: nat, path: seq<nat>)
      requires i < |items| && Leads(items[i], path)
      requires At(items[i], path).Chars? && HasBreak(At(items[i], path).value)
      modifies this`items
      ensures items == CutItem(old(items), i, path, unused)
    {
      hide LeftPart, RightPart, ReplaceAt, At, Leads;
      var ns := items[i];
      var n := At(ns, path);
      var start, end := BreakStart(n.value), BreakEnd(n.value);
      var front := Chars(n.id, n.value[..start]);
      var rest := n.value[end..];
      var after := if rest != [] then [Chars(unused, rest)] else [];
      ReplaceThenCut(ns, path, front, after, [front], unused + 1);
      items := items[i := ReplaceAt(ns, path, [front] + after)];
      BreakAfter(i, path);
      CutThenRemove(ns, path, front);
      if start == 0 {
        items := items[i := ReplaceAt(items[i], path, [])];
      }
    }

    /** What a walk over some nodes does: nothing if no node breaks, and otherwise
        one cut, at the first that does. */
    twostate predicate Walked(i: nat, base: seq<nat>, new found: Option<seq<nat>>)
      requires i < |old(items)|
      reads this
    {
      match found
      case None => items == old(items) && unused == old(unused)
      case Some(p) =>
        && Leads(old(items[i]), base + p)
        && Breaks(At(old(items[i]), base + p), pre)
        && items == CutItem(old(items), i, base + p, old(unused))
        && unused > old(unused)
    }

    /** The walk at one node. */
    method Walk(i: nat, path: seq<nat>, n: Node)
      requires i < |items| && Leads(items[i], path) && n == At(items[i], path)
      modifies this
      ensures Walked(i, path, FirstBreakIn(n, pre))
      decreases n, 0
    {
      assert path + [] == path;
      if n.Element? && !IsNocode(n.cls) {
        if n.name == BR {
          BreakAtElement(i, path);
          unused := unused + 1 + |path|;
        } else {
          WalkKids(i, path, n.kids);
        }
      } else if n.Chars? && pre {
        if HasBreak(n.value) {
          BreakAtText(i, path);
          unused := unused + 1 + |path|;
        }
      }
    }

    /** The loop along the children of a node, or of the item itself. It ends at
        the first cut, since nothing is left behind it. */
    method WalkKids(i: nat, path: seq<nat>, kids: seq<Node>)
      requires i < |items| && LeadsBelow(items[i], path) && kids == Below(items[i], path)
      modifies this
      ensures Walked(i, path, FirstBreak(kids, pre, 0))
      decreases kids, 1
    {
      hide CutItem, Leads, At, Below, LeadsBelow, Breaks, HasBreak;
      var k := 0;
      ghost var found: Option<seq<nat>> := None;
      while k < |Below(items[i], path)|
        invariant i < |items| && LeadsBelow(items[i], path)
        invariant found.None? ==> items == old(items) && unused == old(unused) && k <= |kids|
        invariant found.None? ==> FirstBreak(kids, pre, 0) == FirstBreak(kids, pre, k)
        invariant found.Some? ==> FirstBreak(kids, pre, 0) == found && Walked(i, path, found)
                                  && |Below(items[i], path)| <= k
        decreases |kids| - k
      {
        ChildOf(items[i], path, k);
        found := FirstBreakIn(kids[k], pre);
        Walk(i, path + [k], kids[k]);
        if found.Some? {
          CutLeavesNothing(old(items), i, path, k, found.value, old(unused), pre);
          found := Some([k] + found.value);
        }
        k := k + 1;
      }
    }

    /** The work list: every item is walked once, also the ones pushed on the way.
        At the end no item holds a break. Joined by breaks the items say what the
        original said, except that a break with nothing behind it is dropped. */
    method Run()
      requires |items| == 1
      modifies this
      ensures |items| >= 1 && NoBreaks(items, |items|, pre)
      ensures Events(old(items[0]), [], pre)
           == Joined(items, pre) + (if EndsWithBreak(old(items[0]), pre) then [Break] else [])
      ensures PlainLines(old(items[0]), pre) ==>
                Raw(old(items[0]), pre) == JoinedText(items, pre) + (if EndsWithBreak(old(items[0]), pre) then [NEWLINE] else [])
    {
      hide Events, EndsWithBreak, Joined, JoinedText, FirstBreak, CutItem, Raw, PlainLines, AllPlain;
      ghost var ns := items[0];
      OneItem(items, pre);
      OneText(items, pre);
      var i := 0;
      while i < |items|
        invariant 0 <= i <= |items| <= i + 1 && |items| >= 1
        invariant NoBreaks(items, i, pre)
        invariant i < |items| ==> Events(ns, [], pre) == Joined(items, pre) && EndsWithBreak(items[i], pre) == EndsWithBreak(ns, pre)
        invariant i == |items| ==> Events(ns, [], pre) == Joined(items, pre) + (if EndsWithBreak(ns, pre) then [Break] else [])
        invariant PlainLines(ns, pre) ==> AllPlain(items, pre)
        invariant PlainLines(ns, pre) && i < |items| ==> Raw(ns, pre) == JoinedText(items, pre)
        invariant PlainLines(ns, pre) && i == |items| ==>
                    Raw(ns, pre) == JoinedText(items, pre) + (if EndsWithBreak(ns, pre) then [NEWLINE] else [])
        decreases if i < |items| then 1 + BreakCount(Events(items[i], [], pre)) else 0
      {
        ghost var before, next := items, unused;
        WalkKids(i, [], items[i]);
        ghost var found := FirstBreak(before[i], pre, 0);
        if found.Some? {
          assert [] + found.value == found.value;
          CutOneItem(before, i, pre, found.value, next);
          if PlainLines(ns, pre) { CutOneText(before, i, pre, found.value, next); }
        } else {
          LastItem(before, i, pre);
        }
        i := i + 1;
      }
    }
  }

  // ---- what the items say together ----

  function Joined(items: seq<seq<Node>>, pre: bool): seq<Event> {
    if items == [] then []
    else (if |items| == 1 then [] else Joined(items[..|items|-1], pre) + [Break]) + Events(items[|items|-1], [], pre)
  }

  predicate NoBreaks(items: seq<seq<Node>>, n: nat, pre: bool)
    requires n <= |items|
  {
    forall j :: 0 <= j < n ==> Break !in Events(items[j], [], pre)
  }

  function BreakCount(es: seq<Event>): nat {
    if es == [] then 0 else BreakCount(es[1..]) + if es[0] == Break then 1 else 0
  }

  lemma {:induction false} BreakCountConcat(a: seq<Event>, b: seq<Event>)
    ensures BreakCount(a + b) == BreakCount(a) + BreakCount(b)
  {
    if a == [] {
      assert a + b == b;
    } else {
      assert (a + b)[1..] == a[1..] + b;
      BreakCountConcat(a[1..], b);
    }
  }

  lemma OneItem(items: seq<seq<Node>>, pre: bool)
    requires |items| == 1
    ensures Joined(items, pre) == Events(items[0], [], pre)
  {
  }

  /** The last item has no break. */
  lemma LastItem(items: seq<seq<Node>>, i: nat, pre: bool)
    requires i < |items| && FirstBreak(items[i], pre, 0) == None
    ensures Break !in Events(items[i], [], pre) && !EndsWithBreak(items[i], pre)
  {
    NoBreakFrom(items[i], pre, 0, []);
    assert items[i][0..] == items[i];
    if items[i] != [] { FinalBreakIsABreak(items[i], pre, 0); }
  }

  /** Cutting the last item. */
  lemma CutOneItem(items: seq<seq<Node>>, i: nat, pre: bool, p: seq<nat>, unused: nat)
    requires |items| == i + 1 && FirstBreak(items[i], pre, 0) == Some(p)
    ensures Breaks(At(items[i], p), pre)
    ensures var items' := CutItem(items, i, p, unused);
            && i + 1 <= |items'| <= i + 2 && items'[..i] == items[..i]
            && Break !in Events(items'[i], [], pre)
            && (|items'| == i + 1 ==>
                  EndsWithBreak(items[i], pre) && Joined(items, pre) == Joined(items', pre) + [Break])
            && (|items'| == i + 2 ==>
                  && EndsWithBreak(items'[i+1], pre) == EndsWithBreak(items[i], pre)
                  && Joined(items, pre) == Joined(items', pre)
                  && BreakCount(Events(items'[i+1], [], pre)) < BreakCount(Events(items[i], [], pre)))
  {
    hide Events, Joined, BreakCount, LeftPart, RightPart, FirstBreak, EndsWithBreak, Pushed;
    var ns := items[i];
    CutKeepsEvents(ns, pre, p, [], unused + 1, unused);
    CutKeepsEnd(ns, pre, p, unused + 1, unused);
    var n := At(ns, p);
    var l, r := LeftPart(ns, p, Before(n)), RightPart(ns, p, After(n, unused), unused + 1);
    CutLast(items[..i], ns, l, r, pre);
    SplitLast(items, i, l, r);
  }

  /** The texts of the items, joined by newlines. */
  function JoinedText(items: seq<seq<Node>>, pre: bool): Text {
    if items == [] then []
    else (if |items| == 1 then [] else JoinedText(items[..|items|-1], pre) + [NEWLINE]) + Raw(items[|items|-1], pre)
  }

  predicate AllPlain(items: seq<seq<Node>>, pre: bool) { forall j :: 0 <= j < |items| ==> PlainLines(items[j], pre) }

  lemma OneText(items: seq<seq<Node>>, pre: bool)
    requires |items| == 1
    ensures JoinedText(items, pre) == Raw(items[0], pre) && (PlainLines(items[0], pre) ==> AllPlain(items, pre))
  {
    assert [] + Raw(items[0], pre) == Raw(items[0], pre);
  }

  lemma JoinedTextSnoc(items: seq<seq<Node>>, last: seq<Node>, pre: bool)
    ensures JoinedText(items + [last], pre)
         == (if items == [] then [] else JoinedText(items, pre) + [NEWLINE]) + Raw(last, pre)
  {
    assert (items + [last])[..|items|] == items;
  }

  /** Cutting the last item keeps the joined text. */
  lemma CutOneText(items: seq<seq<Node>>, i: nat, pre: bool, p: seq<nat>, unused: nat)
    requires |items| == i + 1 && FirstBreak(items[i], pre, 0) == Some(p) && AllPlain(items, pre)
    ensures Breaks(At(items[i], p), pre)
    ensures var items' := CutItem(items, i, p, unused);
            && AllPlain(items', pre)
            && (|items'| == i + 1 ==> JoinedText(items, pre) == JoinedText(items', pre) + [NEWLINE])
            && (|items'| == i + 2 ==> JoinedText(items, pre) == JoinedText(items', pre))
  {
    hide Raw, JoinedText, LeftPart, RightPart, FirstBreak, PlainLines, Pushed;
    var ns, rest := items[i], items[..i];
    CutKeepsRaw(ns, pre, p, unused + 1, unused);
    var n := At(ns, p);
    var l, r := LeftPart(ns, p, Before(n)), RightPart(ns, p, After(n, unused), unused + 1);
    SplitLast(items, i, l, r);
    JoinedTextSnoc(rest, ns, pre);
    JoinedTextSnoc(rest, l, pre);
    JoinedTextSnoc(rest + [l], r, pre);
    NothingSaid(pre);
    TextAppended(if rest == [] then [] else JoinedText(rest, pre) + [NEWLINE], Raw(l, pre), Raw(r, pre), Raw(ns, pre));
    assert forall j :: 0 <= j < i ==> rest[j] == items[j];
  }

  lemma TextAppended(f: Text, l: Text, r: Text, t: Text)
    requires t == l + [NEWLINE] + r
    ensures f + t == (f + l) + [NEWLINE] + r
    ensures r == [] ==> f + t == (f + l) + [NEWLINE]
  {}

  lemma CutLast(rest: seq<seq<Node>>, ns: seq<Node>, l: seq<Node>, r: seq<Node>, pre: bool)
    requires Events(ns, [], pre) == Events(l, [], pre) + [Break] + Events(r, [], pre)
    ensures r == [] ==> Joined(rest + [ns], pre) == Joined(rest + [l], pre) + [Break]
    ensures Joined(rest + [ns], pre) == Joined(rest + [l] + [r], pre)
    ensures BreakCount(Events(r, [], pre)) < BreakCount(Events(ns, [], pre))
  {
    hide Events, Joined, BreakCount;
    var el, er, f := Events(l, [], pre), Events(r, [], pre), if rest == [] then [] else Joined(rest, pre) + [Break];
    JoinedSnoc(rest, ns, pre);
    JoinedSnoc(rest, l, pre);
    JoinedSnoc(rest + [l], r, pre);
    BreakLess(el, er);
    CutAppended(f, el, er, Events(ns, [], pre));
    NoEvents(pre);
  }

  lemma SplitLast(items: seq<seq<Node>>, i: nat, l: seq<Node>, r: seq<Node>)
    requires |items| == i + 1
    ensures items == items[..i] + [items[i]]
    ensures Pushed(items, i, l, r) == if r == [] then items[..i] + [l] else items[..i] + [l] + [r]
    ensures Pushed(items, i, l, r)[..i] == items[..i]
  {
  }

  lemma CutAppended(f: seq<Event>, el: seq<Event>, er: seq<Event>, e: seq<Event>)
    requires e == el + [Break] + er
    ensures f + e == (f + el) + [Break] + er
    ensures er == [] ==> f + e == (f + el) + [Break]
  {
  }

  lemma JoinedSnoc(items: seq<seq<Node>>, last: seq<Node>, pre: bool)
    ensures Joined(items + [last], pre)
         == (if items == [] then [] else Joined(items, pre) + [Break]) + Events(last, [], pre)
  {
    assert (items + [last])[..|items|] == items;
  }

  lemma NoEvents(pre: bool)
    ensures Events([], [], pre) == []
  {
  }

  lemma BreakLess(el: seq<Event>, er: seq<Event>)
    ensures BreakCount(er) < BreakCount(el + [Break] + er)
  {
    BreakCountConcat(el + [Break], er);
    BreakCountConcat(el, [Break]);
  }

  // ---- the numbered list ----

  const LI: Text := [108, 105]
  const OL: Text := [111, 108]
  const LINENUMS := Ascii("linenums")
  const NO_BREAK_SPACE: Text := [0xA0]

  /** `x | 0` */
  function ToInt32(x: int): int { (x + 0x8000_0000) % 0x1_0000_0000 - 0x8000_0000 }

  /** The number of the first line, counted from 0: `Math.max(0, d - 1 | 0) || 0`
      for a given number, and 0 where none is given. */
  function FirstLine(start: Option<int>): nat {
    if start.None? then 0 else Max(0, ToInt32(start.value - 1))
  }

  /** A finished item: its class cycles through `L0` to `L9`, and it is never empty. */
  predicate IsLine(n: Node, i: nat, first: nat, kids: seq<Node>) {
    && n.Element? && n.name == LI && n.cls == [76, 48 + (i + first) % 10]
    && (if kids != [] then n.kids == kids
        else |n.kids| == 1 && n.kids[0].Chars? && n.kids[0].value == NO_BREAK_SPACE)
  }

  /** The children of the numbered element: one list, with an item for every line the
      children had. `value` is the attribute of the first item: the number given, if
      it is one of 32 bits; from it on the classes count. */
  method NumberLines(ns: seq<Node>, start: Option<int>, pre: bool, unused: nat)
    returns (list: Node, lines: seq<seq<Node>>, value: Option<int>)
    ensures value == if start.Some? && -0x8000_0000 <= start.value < 0x8000_0000 then start else None
    ensures value.Some? && value.value > 0 ==> FirstLine(start) == value.value - 1
    ensures |lines| >= 1 && NoBreaks(lines, |lines|, pre)
    ensures Events(ns, [], pre) == Joined(lines, pre) + (if EndsWithBreak(ns, pre) then [Break] else [])
    ensures PlainLines(ns, pre) ==>
              Raw(ns, pre) == JoinedText(lines, pre) + (if EndsWithBreak(ns, pre) then [NEWLINE] else [])
    ensures Raw([list], pre) == ListText(lines, pre)
    ensures list.Element? && list.name == OL && list.cls == LINENUMS && |list.kids| == |lines|
    ensures forall i :: 0 <= i < |lines| ==> IsLine(list.kids[i], i, FirstLine(start), lines[i])
  {
    hide Events, Joined, JoinedText, ListText, EndsWithBreak, NoBreaks, PlainLines, Raw, FirstLine, ToInt32, IsNocode;
    var splitter := new LineSplitter(ns, pre, unused);
    splitter.Run();
    lines := splitter.items;
    value := if start.Some? && ToInt32(start.value) == start.value then start else None;
    var kids: seq<Node>, next := [], splitter.unused;
    for i := 0 to |lines|
      invariant |kids| == i && forall j :: 0 <= j < i ==> IsLine(kids[j], j, FirstLine(start), lines[j])
    {
      var inside := if lines[i] != [] then lines[i] else [Chars(next + 1, NO_BREAK_SPACE)];
      kids := kids + [Element(next, LI, [76, 48 + (i + FirstLine(start)) % 10], inside)];
      next := next + 2;
    }
    list := Element(next, OL, LINENUMS, kids);
    ValueIsFirst(start);
    ListSays(list, lines, FirstLine(start), pre);
  }

  lemma ValueIsFirst(start: Option<int>)
    ensures start.Some? ==> (ToInt32(start.value) == start.value <==> -0x8000_0000 <= start.value < 0x8000_0000)
    ensures start.Some? && 0 < start.value < 0x8000_0000 ==> FirstLine(start) == start.value - 1
  {}

  // ---- the text of the numbered list ----

  /** The text of a line of the list: an empty one has one no-break space. */
  function LineText(line: seq<Node>, pre: bool): Text { if line == [] then NO_BREAK_SPACE else Raw(line, pre) }

  /** The texts of the lines, each with a newline behind it. */
  function ListText(lines: seq<seq<Node>>, pre: bool): Text {
    if lines == [] then [] else LineText(lines[0], pre) + [NEWLINE] + ListText(lines[1..], pre)
  }

  lemma NotNocode(cls: Text)
    requires |cls| < 6 || cls == LINENUMS
    ensures !IsNocode(cls)
  {
    if cls == LINENUMS {
      var nocode: Text := Ascii("nocode");
      forall i | 0 <= i <= |cls| - 6 ensures !NocodeAt(cls, i) {
        assert cls[i..i+6][0] == cls[i] && nocode[0] == 110;
        assert cls[i..i+6][1] == cls[i + 1] && nocode[1] == 111;
      }
    }
  }

  lemma ListNames()
    ensures Extraction.EndsLine(LI) && !Extraction.EndsLine(OL)
    ensures forall pre :: Extraction.Normal(NO_BREAK_SPACE, pre) == NO_BREAK_SPACE
  {
    assert ToLowerAscii(LI) == LI && ToLowerAscii(OL) == OL && OL[0] == 111;
    assert NO_BREAK_SPACE[1..] == [];
  }

  /** What the extraction reads off one line. */
  lemma LineSays(n: Node, i: nat, first: nat, line: seq<Node>, pre: bool)
    requires IsLine(n, i, first, line)
    ensures Raw([n], pre) == LineText(line, pre) + [NEWLINE]
  {
    hide Raw;
    RawOfOne(n, pre);
    NotNocode(n.cls);
    ListNames();
    if line == [] {
      RawOfOne(n.kids[0], pre);
      assert n.kids == [n.kids[0]];
    }
  }

  lemma {:induction false} LinesSay(kids: seq<Node>, lines: seq<seq<Node>>, i: nat, first: nat, pre: bool)
    requires |kids| == |lines| && forall j :: 0 <= j < |lines| ==> IsLine(kids[j], i + j, first, lines[j])
    ensures Raw(kids, pre) == ListText(lines, pre)
  {
    hide Raw, IsLine, LineText;
    if kids == [] {
      NothingSaid(pre);
    } else {
      assert IsLine(kids[0], i + 0, first, lines[0]);
      LineSays(kids[0], i, first, lines[0], pre);
      forall j | 0 <= j < |lines| - 1 ensures IsLine(kids[1..][j], (i + 1) + j, first, lines[1..][j]) {
        assert IsLine(kids[j + 1], i + (j + 1), first, lines[j + 1]);
      }
      LinesSay(kids[1..], lines[1..], i + 1, first, pre);
      RawAppend([kids[0]], kids[1..], pre);
      assert kids == [kids[0]] + kids[1..];
    }
  }

  /** What it reads off the whole list: the lines one by one. */
  lemma ListSays(list: Node, lines: seq<seq<Node>>, first: nat, pre: bool)
    requires list.Element? && list.name == OL && list.cls == LINENUMS && |list.kids| == |lines|
    requires forall i :: 0 <= i < |lines| ==> IsLine(list.kids[i], i, first, lines[i])
    ensures Raw([list], pre) == ListText(lines, pre)
  {
    hide Raw, IsLine, ListText;
    RawOfOne(list, pre);
    NotNocode(list.cls);
    ListNames();
    forall j | 0 <= j < |lines| ensures IsLine(list.kids[j], 0 + j, first, lines[j]) {}
    LinesSay(list.kids, lines, 0, first, pre);
    assert Raw(list.kids, pre) + [] == Raw(list.kids, pre);
  }

  /** With no empty line the list says what the lines say, and a newline. */
  lemma {:induction false} FullLines(lines: seq<seq<Node>>, pre: bool)
    requires lines != [] && [] !in lines
    ensures ListText(lines, pre) == JoinedText(lines, pre) + [NEWLINE]
  {
    hide Raw;
    var front, last := lines[..|lines|-1], lines[|lines|-1];
    assert lines == front + [last];
    ListTextSnoc(front, last, pre);
    JoinedTextSnoc(front, last, pre);
    if front != [] { FullLines(front, pre); } else { assert ListText(front, pre) == []; }
  }

  lemma {:induction false} ListTextSnoc(lines: seq<seq<Node>>, last: seq<Node>, pre: bool)
    ensures ListText(lines + [last], pre) == ListText(lines, pre) + LineText(last, pre) + [NEWLINE]
  {
    hide LineText;
    if lines == [] {
      assert lines + [last] == [last] && [last][1..] == [];
      assert ListText([last][1..], pre) == [];
    } else {
      assert (lines + [last])[1..] == lines[1..] + [last];
      ListTextSnoc(lines[1..], last, pre);
    }
  }
}
