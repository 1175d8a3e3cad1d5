/** Inclusive ranges of code units as the class folder keeps them: closing a
    range under ASCII case, and merging a sorted list into canonical form. */
module CodeRanges {
  import opened Prelude
  import opened Sorting

  datatype Range = Range(lo: int, hi: int)

  predicate Ordered(r: Range) { r.lo <= r.hi }

  predicate AllOrdered(rs: seq<Range>) { forall r :: r in rs ==> Ordered(r) }

  /** Membership in the union of the ranges. */
  predicate InRanges(rs: seq<Range>, c: int) { exists r :: r in rs && r.lo <= c <= r.hi }

  /** Sorted, disjoint, and with a gap between neighbours. */
  predicate Canonical(rs: seq<Range>) {
    && AllOrdered(rs)
    && forall i, j :: 0 <= i < j < |rs| ==> rs[i].hi + 1 < rs[j].lo
  }

  // ---- case closure ----

  /** `c | 32` on a non-negative integer: bit 5 set. */
  function SetBit5(c: nat): nat { if c / 32 % 2 == 0 then c + 32 else c }

  /** `c & -33` on a non-negative integer: bit 5 cleared. */
  function ClearBit5(c: nat): nat { if c / 32 % 2 == 1 then c - 32 else c }

  function SwapCase(c: int): int {
    if 65 <= c <= 90 then c + 32 else if 97 <= c <= 122 then c - 32 else c
  }

  /** What one parsed range contributes: itself, and the images of its part in
      A-Z and of its part in a-z. */
  function WithCaseFolds(r: Range): seq<Range> {
    if r.hi < 65 || r.lo > 122 then [r] else
      [r]
      + (if r.hi < 65 || r.lo > 90 then []
         else [Range(SetBit5(Max(65, r.lo)), SetBit5(Min(r.hi, 90)))])
      + (if r.hi < 97 || r.lo > 122 then []
         else [Range(ClearBit5(Max(97, r.lo)), ClearBit5(Min(r.hi, 122)))])
  }

  function WithAllCaseFolds(rs: seq<Range>): seq<Range> {
    if rs == [] then [] else WithAllCaseFolds(rs[..|rs|-1]) + WithCaseFolds(rs[|rs|-1])
  }

  /** In A-Z setting bit 5 gives the small letter; in a-z clearing it gives the capital. */
  lemma Bit5SwapsCase(c: nat)
    ensures 65 <= c <= 90 ==> SetBit5(c) == c + 32
    ensures 97 <= c <= 122 ==> ClearBit5(c) == c - 32
  {
  }

  lemma InRangesAppend(a: seq<Range>, b: seq<Range>, c: int)
    ensures InRanges(a + b, c) <==> InRanges(a, c) || InRanges(b, c)
  {
  }

  lemma InSingleton(r: Range, c: int)
    ensures InRanges([r], c) <==> r.lo <= c <= r.hi
  {
    assert r in [r];
  }

  lemma WithCaseFoldsCloses(r: Range, c: int)
    requires Ordered(r)
    ensures AllOrdered(WithCaseFolds(r))
    ensures InRanges(WithCaseFolds(r), c) <==> r.lo <= c <= r.hi || r.lo <= SwapCase(c) <= r.hi
  {
    InSingleton(r, c);
    if !(r.hi < 65 || r.lo > 122) {
      var upper := if r.hi < 65 || r.lo > 90 then [] else [Range(Max(65, r.lo) + 32, Min(r.hi, 90) + 32)];
      var lower := if r.hi < 97 || r.lo > 122 then [] else [Range(Max(97, r.lo) - 32, Min(r.hi, 122) - 32)];
      if r.lo <= 90 { Bit5SwapsCase(Max(65, r.lo)); Bit5SwapsCase(Min(r.hi, 90)); }
      if 97 <= r.hi { Bit5SwapsCase(Max(97, r.lo)); Bit5SwapsCase(Min(r.hi, 122)); }
      assert WithCaseFolds(r) == [r] + upper + lower;
      InRangesAppend([r] + upper, lower, c);
      InRangesAppend([r], upper, c);
      if upper != [] { InSingleton(upper[0], c); }
      if lower != [] { InSingleton(lower[0], c); }
      assert InRanges(upper, c) <==> 97 <= c <= 122 && r.lo <= c - 32 <= r.hi;
      assert InRanges(lower, c) <==> 65 <= c <= 90 && r.lo <= c + 32 <= r.hi;
    }
  }

  /** The collected ranges denote the parsed set closed under ASCII case. */
  lemma {:induction false} WithAllCaseFoldsCloses(rs: seq<Range>, c: int)
    requires AllOrdered(rs)
    ensures AllOrdered(WithAllCaseFolds(rs))
    ensures InRanges(WithAllCaseFolds(rs), c) <==> InRanges(rs, c) || InRanges(rs, SwapCase(c))
  {
    if rs != [] {
      var front, r := rs[..|rs|-1], rs[|rs|-1];
      assert rs == front + [r];
      WithAllCaseFoldsCloses(front, c);
      WithCaseFoldsCloses(r, c);
      InRangesAppend(WithAllCaseFolds(front), WithCaseFolds(r), c);
      InRangesAppend(front, [r], c);
      InRangesAppend(front, [r], SwapCase(c));
      InSingleton(r, c);
      InSingleton(r, SwapCase(c));
    }
  }

  // ---- canonical form ----

  /** The comparator `x[0]-y[0] || y[1]-x[1]`. */
  predicate Leq(x: Range, y: Range) { x.lo < y.lo || (x.lo == y.lo && x.hi >= y.hi) }

  /** One step of the merging loop: `h` either widens the last range or starts a new one. */
  function Absorb(m: seq<Range>, h: Range): seq<Range> {
    if m != [] && h.lo <= m[|m|-1].hi + 1
    then m[|m|-1 := Range(m[|m|-1].lo, Max(m[|m|-1].hi, h.hi))]
    else m + [h]
  }

  function Merge(rs: seq<Range>): seq<Range> {
    if rs == [] then [] else Absorb(Merge(rs[..|rs|-1]), rs[|rs|-1])
  }

  function Normalise(rs: seq<Range>): seq<Range> { Merge(Sort(Leq, rs)) }

  lemma AbsorbKeepsCanonical(m: seq<Range>, h: Range)
    requires Canonical(m) && Ordered(h)
    requires m != [] ==> m[|m|-1].lo <= h.lo
    ensures Canonical(Absorb(m, h)) && Absorb(m, h) != []
    ensures Absorb(m, h)[|Absorb(m, h)|-1].lo <= h.lo
  {
    var n := Absorb(m, h);
    forall r | r in n ensures Ordered(r) {
      var i :| 0 <= i < |n| && n[i] == r;
      assert i < |m| ==> m[i] in m;
    }
  }

  lemma AbsorbAdds(m: seq<Range>, h: Range, c: int)
    requires Canonical(m) && Ordered(h)
    requires m != [] ==> m[|m|-1].lo <= h.lo
    ensures InRanges(Absorb(m, h), c) <==> InRanges(m, c) || h.lo <= c <= h.hi
  {
    InSingleton(h, c);
    if m != [] && h.lo <= m[|m|-1].hi + 1 {
      var front, l := m[..|m|-1], m[|m|-1];
      var l' := Range(l.lo, Max(l.hi, h.hi));
      assert m == front + [l] && Absorb(m, h) == front + [l'];
      InRangesAppend(front, [l], c);
      InRangesAppend(front, [l'], c);
      InSingleton(l, c);
      InSingleton(l', c);
      assert Ordered(l) by { assert l in m; }
    } else {
      InRangesAppend(m, [h], c);
    }
  }

  lemma {:induction false} MergeIsCanonical(rs: seq<Range>)
    requires Sorted(Leq, rs) && AllOrdered(rs)
    ensures Canonical(Merge(rs))
    ensures rs != [] ==> Merge(rs) != [] && Merge(rs)[|Merge(rs)|-1].lo <= rs[|rs|-1].lo
    ensures forall c :: InRanges(Merge(rs), c) <==> InRanges(rs, c)
  {
    if rs != [] {
      var front, h := rs[..|rs|-1], rs[|rs|-1];
      assert rs == front + [h];
      MergeIsCanonical(front);
      assert h in rs;
      assert front != [] ==> Leq(rs[|rs|-2], h);
      AbsorbKeepsCanonical(Merge(front), h);
      forall c ensures InRanges(Merge(rs), c) <==> InRanges(rs, c) {
        AbsorbAdds(Merge(front), h, c);
        InRangesAppend(front, [h], c);
        InSingleton(h, c);
      }
    }
  }

  /** Sorting then merging gives the canonical list of the same set. */
  lemma NormaliseIsCanonical(rs: seq<Range>)
    requires AllOrdered(rs)
    ensures Canonical(Normalise(rs))
    ensures forall c :: InRanges(Normalise(rs), c) <==> InRanges(rs, c)
  {
    var sorted := Sort(Leq, rs);
    SortSorts(Leq, rs);
    forall r ensures r in sorted <==> r in rs {
      assert r in sorted <==> r in multiset(sorted);
      assert r in rs <==> r in multiset(rs);
    }
    MergeIsCanonical(sorted);
  }

  lemma HeadBounds(rs: seq<Range>, c: int)
    requires Canonical(rs) && rs != []
    ensures InRanges(rs, rs[0].lo) && InRanges(rs, rs[0].hi)
    ensures c < rs[0].lo ==> !InRanges(rs, c)
    ensures c == rs[0].hi + 1 ==> !InRanges(rs, c)
    ensures InRanges(rs[1..], c) <==> InRanges(rs, c) && rs[0].hi < c
    ensures Canonical(rs[1..])
  {
    assert rs[0] in rs;
    if r :| r in rs && r.lo <= c <= r.hi {
      var i :| 0 <= i < |rs| && rs[i] == r;
      if i > 0 {
        assert rs[1..][i-1] == r;
      }
    }
    if r :| r in rs[1..] && r.lo <= c <= r.hi {
      var i :| 0 <= i < |rs|-1 && rs[1..][i] == r;
      assert r == rs[i+1];
    }
  }

  lemma HeadsAgree(a: seq<Range>, b: seq<Range>)
    requires Canonical(a) && Canonical(b) && a != [] && b != []
    requires forall c :: InRanges(a, c) <==> InRanges(b, c)
    ensures a[0] == b[0]
  {
    assert a[0] in a && b[0] in b;
    HeadBounds(a, b[0].lo); HeadBounds(b, a[0].lo);
    assert a[0].lo == b[0].lo;
    HeadBounds(a, a[0].hi + 1); HeadBounds(b, b[0].hi + 1);
  }

  /** A set of code units has only one canonical list of ranges. */
  lemma {:induction false} CanonicalIsUnique(a: seq<Range>, b: seq<Range>)
    requires Canonical(a) && Canonical(b)
    requires forall c :: InRanges(a, c) <==> InRanges(b, c)
    ensures a == b
  {
    if a != [] && b != [] {
      HeadsAgree(a, b);
      forall c ensures InRanges(a[1..], c) <==> InRanges(b[1..], c) {
        HeadBounds(a, c); HeadBounds(b, c);
      }
      HeadBounds(a, 0); HeadBounds(b, 0);
      CanonicalIsUnique(a[1..], b[1..]);
      assert a == [a[0]] + a[1..] && b == [b[0]] + b[1..];
    } else if a != [] {
      HeadBounds(a, 0);
    } else if b != [] {
      HeadBounds(b, 0);
    }
  }

  // ---- the merging loop, with its aliasing ----

  /** A two-element array `[lo, hi]` of the source: shared and updated in place. */
  class RangeCell {
    var lo: int
    var hi: int

    constructor (r: Range)
      ensures lo == r.lo && hi == r.hi
    {
      lo, hi := r.lo, r.hi;
    }

    function Value(): Range
      reads this
    {
      Range(lo, hi)
    }
  }

  ghost predicate Hold(cells: seq<RangeCell>, rs: seq<Range>)
    reads set c | c in cells
  {
    |cells| == |rs| && forall i :: 0 <= i < |cells| ==> cells[i].lo == rs[i].lo && cells[i].hi == rs[i].hi
  }

  ghost predicate AllDistinct(cells: seq<RangeCell>) {
    forall i, j :: 0 <= i < j < |cells| ==> cells[i] != cells[j]
  }

  /** One turn of the merging loop: `h` widens the last cell in place, or is
      pushed. Cells still to come keep their values. */
  method WidenOrPush(merged: seq<RangeCell>, h: RangeCell, ghost m: seq<Range>, ghost r: Range,
                     ghost later: seq<RangeCell>, ghost was: seq<Range>)
    returns (merged': seq<RangeCell>)
    requires Hold(merged, m) && AllDistinct(merged + [h] + later)
    requires h.lo == r.lo && h.hi == r.hi && Hold(later, was)
    modifies if merged == [] then {} else {merged[|merged|-1]}
    ensures Hold(merged', Absorb(m, r)) && Hold(later, was)
    ensures merged' == merged || merged' == merged + [h]
  {
    var all := merged + [h] + later;
    assert forall i :: 0 <= i < |later| ==> later[i] == all[|merged| + 1 + i];
    assert forall i :: 0 <= i < |merged| ==> merged[i] == all[i];
    merged' := merged;
    if merged != [] && h.lo <= merged[|merged|-1].hi + 1 {
      var last := merged[|merged|-1];
      last.hi := Max(last.hi, h.hi);
    } else {
      merged' := merged + [h];
    }
  }

  /** The merging loop. The last cell pushed is widened in place, so the merged
      list that holds it changes with it. */
  method MergeSorted(cells: seq<RangeCell>, ghost sorted: seq<Range>) returns (merged: seq<RangeCell>)
    requires Hold(cells, sorted) && AllDistinct(cells)
    modifies set c | c in cells
    ensures Hold(merged, Merge(sorted))
  {
    hide Absorb;
    merged := [];
    for a := 0 to |cells|
      invariant Hold(cells[a..], sorted[a..]) && Hold(merged, Merge(sorted[..a]))
      invariant AllDistinct(merged + cells[a..]) && forall c :: c in merged ==> c in cells
    {
      assert sorted[..a+1][..a] == sorted[..a];
      assert cells[a..] == [cells[a]] + cells[a+1..] && sorted[a..] == [sorted[a]] + sorted[a+1..];
      assert cells[a] == cells[a..][0] && sorted[a] == sorted[a..][0];
      assert merged + cells[a..] == merged + [cells[a]] + cells[a+1..];
      ghost var before := merged;
      ghost var rest := cells[a+1..];
      merged := WidenOrPush(merged, cells[a], Merge(sorted[..a]), sorted[a], rest, sorted[a+1..]);
      StillDistinct(before, cells[a], rest, merged);
    }
    assert sorted[..|cells|] == sorted;
  }

  lemma StillDistinct(merged: seq<RangeCell>, h: RangeCell, later: seq<RangeCell>, merged': seq<RangeCell>)
    requires AllDistinct(merged + [h] + later) && (merged' == merged || merged' == merged + [h])
    ensures AllDistinct(merged' + later)
  {
    if merged' == merged {
      var all := merged + [h] + later;
      forall i, j | 0 <= i < j < |merged + later| ensures (merged + later)[i] != (merged + later)[j] {
        assert (merged + later)[i] == all[if i < |merged| then i else i + 1];
        assert (merged + later)[j] == all[if j < |merged| then j else j + 1];
      }
    }
  }
}
