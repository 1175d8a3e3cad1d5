/** Decorations: positions with the style in force from there on, kept as one flat
    list of alternating cells, and the in-place compaction of that list. */
module Decorations {
  import opened Prelude

  /** One entry of the flat list `[pos, style, pos, style, ...]`. */
  datatype Cell = Pos(p: nat) | Style(s: Text)

  datatype Decoration = Decoration(pos: nat, style: Text)

  /** `cells` is the flat list of the decorations. */
  predicate IsFlat(cells: seq<Cell>, ds: seq<Decoration>) {
    |cells| == 2 * |ds| &&
    forall k :: 0 <= k < |ds| ==> cells[2*k] == Pos(ds[k].pos) && cells[2*k+1] == Style(ds[k].style)
  }

  predicate NonDecreasing(ds: seq<Decoration>) {
    forall i, j :: 0 <= i < j < |ds| ==> ds[i].pos <= ds[j].pos
  }

  predicate Increasing(ds: seq<Decoration>) {
    forall i, j :: 0 <= i < j < |ds| ==> ds[i].pos < ds[j].pos
  }

  predicate NeighboursDiffer(ds: seq<Decoration>) {
    forall i :: 0 <= i < |ds| - 1 ==> ds[i].style != ds[i+1].style
  }

  /** The style in force at a position: that of the last decoration at or before it. */
  function StyleAt(ds: seq<Decoration>, p: nat): Option<Text> {
    if ds == [] then None
    else if ds[|ds|-1].pos <= p then Some(ds[|ds|-1].style)
    else StyleAt(ds[..|ds|-1], p)
  }

  // ---- what the two loops compute ----

  function NextPos(ds: seq<Decoration>, end: nat, i: nat): nat
    requires i < |ds|
  {
    if i + 1 < |ds| then ds[i+1].pos else end
  }

  /** The first `k` decorations without those whose text is empty. */
  function Effective(ds: seq<Decoration>, end: nat, k: nat): seq<Decoration>
    requires k <= |ds|
  {
    if k == 0 then []
    else Effective(ds, end, k - 1) + if ds[k-1].pos != NextPos(ds, end, k - 1) then [ds[k-1]] else []
  }

  /** The first `k` decorations without those that repeat the style before them. */
  function Changes(ds: seq<Decoration>, k: nat): seq<Decoration>
    requires k <= |ds|
  {
    if k == 0 then []
    else Changes(ds, k - 1) + if k == 1 || ds[k-2].style != ds[k-1].style then [ds[k-1]] else []
  }

  function Compact(ds: seq<Decoration>, end: nat): seq<Decoration> {
    var es := Effective(ds, end, |ds|);
    Changes(es, |es|)
  }

  lemma {:induction false} EffectiveIncreases(ds: seq<Decoration>, end: nat, k: nat)
    requires NonDecreasing(ds) && k <= |ds|
    ensures Increasing(Effective(ds, end, k))
    ensures var es := Effective(ds, end, k); es != [] && k < |ds| ==> es[|es|-1].pos < ds[k].pos
    ensures |Effective(ds, end, k)| <= k
  {
    if k > 0 { EffectiveIncreases(ds, end, k - 1); }
  }

  lemma {:induction false} EffectiveKeepsStyle(ds: seq<Decoration>, end: nat, k: nat, p: nat)
    requires NonDecreasing(ds) && 0 < k <= |ds| && p < NextPos(ds, end, k - 1)
    ensures StyleAt(Effective(ds, end, k), p) == StyleAt(ds[..k], p)
  {
    var es := Effective(ds, end, k - 1);
    assert ds[..k][..k-1] == ds[..k-1];
    if ds[k-1].pos <= p {
      assert Effective(ds, end, k) == es + [ds[k-1]];
    } else {
      assert (es + [ds[k-1]])[..|es|] == es && es + [] == es;
      if k > 1 { EffectiveKeepsStyle(ds, end, k - 1, p); }
    }
  }

  lemma {:induction false} ChangesKeep(ds: seq<Decoration>, k: nat)
    requires Increasing(ds) && k <= |ds|
    ensures var cs := Changes(ds, k);
            && Increasing(cs) && NeighboursDiffer(cs)
            && (k > 0 ==> cs != [] && cs[0] == ds[0] && cs[|cs|-1].style == ds[k-1].style && cs[|cs|-1].pos <= ds[k-1].pos)
  {
    if k > 0 { ChangesKeep(ds, k - 1); }
  }

  lemma {:induction false} ChangesKeepStyle(ds: seq<Decoration>, k: nat, p: nat)
    requires Increasing(ds) && k <= |ds|
    ensures StyleAt(Changes(ds, k), p) == StyleAt(ds[..k], p)
  {
    if k > 0 {
      var cs := Changes(ds, k - 1);
      ChangesKeepStyle(ds, k - 1, p);
      assert ds[..k][..k-1] == ds[..k-1];
      if k == 1 || ds[k-2].style != ds[k-1].style {
        assert (cs + [ds[k-1]])[..|cs|] == cs;
      } else {
        assert cs + [] == cs && ds[..k-1][..k-2] == ds[..k-2];
      }
    }
  }

  /** Compaction keeps the style of every position before the end, and leaves
      positions strictly increasing and neighbouring styles different. */
  lemma CompactKeepsStyles(ds: seq<Decoration>, end: nat)
    requires NonDecreasing(ds)
    ensures Increasing(Compact(ds, end)) && NeighboursDiffer(Compact(ds, end))
    ensures forall p: nat :: p < end ==> StyleAt(Compact(ds, end), p) == StyleAt(ds, p)
  {
    var es := Effective(ds, end, |ds|);
    EffectiveIncreases(ds, end, |ds|);
    ChangesKeep(es, |es|);
    forall p: nat | p < end ensures StyleAt(Compact(ds, end), p) == StyleAt(ds, p) {
      assert es[..|es|] == es && ds[..|ds|] == ds;
      ChangesKeepStyle(es, |es|, p);
      if ds != [] { EffectiveKeepsStyle(ds, end, |ds|, p); }
    }
  }

  lemma {:induction false} StyledFromFirst(ds: seq<Decoration>, p: nat)
    requires NonDecreasing(ds)
    ensures StyleAt(ds, p).Some? <==> ds != [] && ds[0].pos <= p
  {
    if ds != [] { StyledFromFirst(ds[..|ds|-1], p); }
  }

  /** A list that starts at 0 still does, unless there is nothing to style. */
  lemma CompactStartsAtZero(ds: seq<Decoration>, end: nat)
    requires NonDecreasing(ds) && ds != [] && ds[0].pos == 0 && end > 0
    ensures Compact(ds, end) != [] && Compact(ds, end)[0].pos == 0
  {
    CompactKeepsStyles(ds, end);
    StyledFromFirst(ds, 0);
    StyledFromFirst(Compact(ds, end), 0);
  }

  // ---- the loops, in place ----

  lemma EffectiveStep(ds: seq<Decoration>, end: nat, k: nat)
    requires k < |ds|
    ensures Effective(ds, end, k + 1)
         == if ds[k].pos != NextPos(ds, end, k) then Effective(ds, end, k) + [ds[k]] else Effective(ds, end, k)
  {
  }

  lemma ChangesStep(ds: seq<Decoration>, k: nat)
    requires k < |ds|
    ensures Changes(ds, k + 1)
         == if k == 0 || ds[k-1].style != ds[k].style then Changes(ds, k) + [ds[k]] else Changes(ds, k)
  {
  }

  /** The first `2 * |ds|` cells are those of the decorations. */
  ghost predicate Begins(c: seq<Cell>, ds: seq<Decoration>) {
    2 * |ds| <= |c| &&
    forall k :: 0 <= k < |ds| ==> c[2*k] == Pos(ds[k].pos) && c[2*k+1] == Style(ds[k].style)
  }

  lemma BeginsMore(c: seq<Cell>, c': seq<Cell>, ds: seq<Decoration>, d: Decoration)
    requires Begins(c, ds) && |c'| == |c| && 2 * |ds| + 2 <= |c|
    requires forall j :: 0 <= j < 2 * |ds| ==> c'[j] == c[j]
    requires c'[2 * |ds|] == Pos(d.pos) && c'[2 * |ds| + 1] == Style(d.style)
    ensures Begins(c', ds + [d])
  {
  }

  lemma BeginsFlat(c: seq<Cell>, ds: seq<Decoration>)
    requires 2 * |ds| <= |c|
    ensures Begins(c, ds) <==> IsFlat(c[..2 * |ds|], ds)
  {
    if IsFlat(c[..2 * |ds|], ds) {
      forall k | 0 <= k < |ds| ensures c[2*k] == Pos(ds[k].pos) && c[2*k+1] == Style(ds[k].style) {
        assert c[..2 * |ds|][2*k] == c[2*k] && c[..2 * |ds|][2*k+1] == c[2*k+1];
      }
    }
  }

  lemma BeginsAt(c: seq<Cell>, ds: seq<Decoration>, k: nat)
    requires Begins(c, ds) && k < |ds|
    ensures c[2*k] == Pos(ds[k].pos) && c[2*k+1] == Style(ds[k].style)
  {
  }

  /** `c[n++]=c[e++], c[n++]=c[e++]` for the cells of one decoration. */
  method PutPair(c: array<Cell>, n: nat, p: Cell, w: Cell, ghost es: seq<Decoration>, ghost d: Decoration)
    requires n == 2 * |es| && n + 1 < c.Length && Begins(c[..], es)
    requires p == Pos(d.pos) && w == Style(d.style)
    modifies c
    ensures Begins(c[..], es + [d])
    ensures forall j :: n + 2 <= j < c.Length ==> c[j] == old(c[j])
  {
    ghost var before := c[..];
    c[n] := p;
    c[n+1] := w;
    BeginsMore(before, c[..], es, d);
  }

  /** First loop: `c[i]` is the sentinel; entries in front of an equal position go. */
  method DropEmpty(c: array<Cell>, i: nat, ghost ds: seq<Decoration>, ghost end: nat) returns (n: nat)
    requires c.Length == i + 1 && i == 2 * |ds| && Begins(c[..], ds) && c[i] == Pos(end)
    modifies c
    ensures n == 2 * |Effective(ds, end, |ds|)| <= i && Begins(c[..], Effective(ds, end, |ds|))
  {
    ghost var cells := c[..];
    var e := 0;
    n := 0;
    ghost var k, es := 0, Effective(ds, end, 0);
    assert Begins(cells, es);
    hide Effective, Begins;
    while e < i
      invariant 0 <= n <= e <= i && e == 2 * k && n == 2 * |es|
      invariant es == Effective(ds, end, k)
      invariant Begins(c[..], es)
      invariant forall j :: e <= j <= i ==> c[j] == cells[j]
      decreases i - e
    {
      BeginsAt(cells, ds, k);
      if k + 1 < |ds| { BeginsAt(cells, ds, k + 1); }
      EffectiveStep(ds, end, k);
      if c[e] != c[e+2] {
        PutPair(c, n, c[e], c[e+1], es, ds[k]);
        n, e := n + 2, e + 2;
      } else {
        e := e + 2;
      }
      k := k + 1;
      es := Effective(ds, end, k);
    }
  }

  /** The inner scan: `t` moves past the entries that repeat the style `w` of entry `k`. */
  method RunEnd(c: array<Cell>, e: nat, i: nat, w: Cell, ghost ds: seq<Decoration>, ghost k: nat)
    returns (t: nat, ghost next: nat)
    requires e == 2 * k && k < |ds| && i == 2 * |ds| <= c.Length && w == Style(ds[k].style)
    requires forall j :: k <= j < |ds| ==> c[2*j+1] == Style(ds[j].style)
    ensures e < t <= i && t == 2 * next
    ensures Changes(ds, next) == Changes(ds, k + 1)
    ensures next < |ds| ==> ds[next-1].style != ds[next].style
  {
    t, next := e + 2, k + 1;
    while t + 2 <= i && c[t+1] == w
      invariant e + 2 <= t <= i && t == 2 * next
      invariant Changes(ds, next) == Changes(ds, k + 1) && ds[next-1].style == ds[k].style
      decreases i - t
    {
      ChangesStep(ds, next);
      assert c[2*next+1] == Style(ds[next].style);
      t, next := t + 2, next + 1;
    }
    if t < i { assert c[2*next+1] == Style(ds[next].style); }
  }

  /** Second loop: of a run of equal styles only the first entry stays. */
  method DropRepeats(c: array<Cell>, i: nat, ghost ds: seq<Decoration>) returns (n: nat)
    requires i <= c.Length && i == 2 * |ds| && Begins(c[..], ds)
    modifies c
    ensures n == 2 * |Changes(ds, |ds|)| <= i && Begins(c[..], Changes(ds, |ds|))
  {
    ghost var cells := c[..];
    var e := 0;
    n := 0;
    ghost var k, cs := 0, Changes(ds, 0);
    assert Begins(cells, cs);
    hide Changes, Begins;
    while e < i
      invariant 0 <= n <= e <= i && e == 2 * k && n == 2 * |cs|
      invariant cs == Changes(ds, k)
      invariant Begins(c[..], cs)
      invariant forall j :: e <= j < i ==> c[j] == cells[j]
      invariant 0 < k < |ds| ==> ds[k-1].style != ds[k].style
      decreases i - e
    {
      BeginsAt(cells, ds, k);
      var p, w := c[e], c[e+1];
      forall j | k <= j < |ds| ensures c[2*j+1] == Style(ds[j].style) {
        BeginsAt(cells, ds, j);
      }
      var t, next := RunEnd(c, e, i, w, ds, k);
      ChangesStep(ds, k);
      PutPair(c, n, p, w, cs, ds[k]);
      n, e, k := n + 2, t, next;
      cs := Changes(ds, k);
    }
  }

  /** Both loops. `c` holds the list and one slot more for the sentinel; the first
      `n` cells are the compacted list. */
  method CompactInPlace(c: array<Cell>, i: nat, end: nat, ghost ds: seq<Decoration>) returns (n: nat)
    requires c.Length == i + 1 && IsFlat(c[..i], ds)
    modifies c
    ensures n <= i && IsFlat(c[..n], Compact(ds, end))
  {
    BeginsFlat(c[..], ds);
    ghost var es := Effective(ds, end, |ds|);
    c[i] := Pos(end);
    n := DropEmpty(c, i, ds, end);
    n := DropRepeats(c, n, es);
    BeginsFlat(c[..], Changes(es, |es|));
  }
}
