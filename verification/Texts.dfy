/** Operations of JavaScript strings that the search and the filter use: the order
    that `sort()` without a comparator follows, which compares texts code unit by
    code unit, and `trim()`, which takes white space off both ends of a text. */
module Texts {
  import opened Prelude
  import opened Sorting

  // ---- the order of `sort()` without a comparator ----

  predicate TextLeq(a: Text, b: Text) {
    a == [] || (b != [] && (a[0] < b[0] || (a[0] == b[0] && TextLeq(a[1..], b[1..]))))
  }

  /** The texts are the same in front of `k`, and there the first has the lesser unit. */
  predicate LessAt(a: Text, b: Text, k: nat) { k < |a| && k < |b| && a[..k] == b[..k] && a[k] < b[k] }

  lemma LessBehind(a: Text, b: Text, k: nat)
    requires a != [] && b != [] && a[0] == b[0]
    ensures LessAt(a[1..], b[1..], k) <==> LessAt(a, b, k + 1)
  {
    if k < |a| - 1 && k < |b| - 1 {
      assert a[..k + 1] == [a[0]] + a[1..][..k] && b[..k + 1] == [b[0]] + b[1..][..k];
      assert a[..k + 1][1..] == a[1..][..k] && b[..k + 1][1..] == b[1..][..k];
    }
  }

  /** A text comes before those it begins, and before those that have a greater unit where
      they first differ. */
  lemma {:induction false} TextLeqMeans(a: Text, b: Text)
    ensures TextLeq(a, b) <==> a <= b || exists k: nat :: LessAt(a, b, k)
  {
    hide LessAt;
    if a != [] && b != [] {
      LessFirst(a, b);
      if a[0] == b[0] {
        TextLeqMeans(a[1..], b[1..]);
        assert a == [a[0]] + a[1..] && b == [b[0]] + b[1..];
        if k: nat :| LessAt(a[1..], b[1..], k) { LessBehind(a, b, k); }
        if k: nat :| LessAt(a, b, k) { if k > 0 { LessBehind(a, b, k - 1); } }
      } else {
        forall k: nat | LessAt(a, b, k) ensures k == 0 { LessLater(a, b, k); }
      }
    } else {
      forall k: nat ensures !LessAt(a, b, k) { LessNowhere(a, b, k); }
    }
  }

  lemma LessFirst(a: Text, b: Text)
    requires a != [] && b != []
    ensures LessAt(a, b, 0) <==> a[0] < b[0]
  {
    assert a[..0] == b[..0];
  }

  lemma LessLater(a: Text, b: Text, k: nat)
    requires LessAt(a, b, k)
    ensures k > 0 ==> a[0] == b[0]
  {
    if k > 0 { SameFirst(a, b, k); }
  }

  lemma LessNowhere(a: Text, b: Text, k: nat)
    requires a == [] || b == []
    ensures !LessAt(a, b, k)
  {}

  lemma SameFirst(a: Text, b: Text, k: nat)
    requires 0 < k <= |a| && k <= |b| && a[..k] == b[..k]
    ensures a[0] == b[0]
  {
    assert a[..k][0] == a[0] && b[..k][0] == b[0];
  }

  lemma {:induction false} TextLeqTotal(a: Text, b: Text)
    ensures TextLeq(a, b) || TextLeq(b, a)
    ensures TextLeq(a, b) && TextLeq(b, a) ==> a == b
  {
    if a != [] && b != [] && a[0] == b[0] {
      TextLeqTotal(a[1..], b[1..]);
      assert a == [a[0]] + a[1..] && b == [b[0]] + b[1..];
    }
  }

  lemma {:induction false} TextLeqTransitive(a: Text, b: Text, c: Text)
    requires TextLeq(a, b) && TextLeq(b, c)
    ensures TextLeq(a, c)
  {
    if a != [] && a[0] == b[0] && b[0] == c[0] { TextLeqTransitive(a[1..], b[1..], c[1..]); }
  }

  lemma TextLeqIsTotalOrder()
    ensures TotalOrder(TextLeq)
  {
    forall a, b ensures TextLeq(a, b) || TextLeq(b, a) { TextLeqTotal(a, b); }
    forall a, b, c | TextLeq(a, b) && TextLeq(b, c) ensures TextLeq(a, c) { TextLeqTransitive(a, b, c); }
  }

  // ---- trimming ----

  predicate AllSpace(t: Text) { forall i :: 0 <= i < |t| ==> IsSpace(t[i]) }

  function TrimLeft(t: Text): (r: Text)
    ensures |r| <= |t|
  {
    if t != [] && IsSpace(t[0]) then TrimLeft(t[1..]) else t
  }

  function TrimRight(t: Text): Text {
    if t != [] && IsSpace(t[|t|-1]) then TrimRight(t[..|t|-1]) else t
  }

  function Trim(t: Text): Text { TrimRight(TrimLeft(t)) }

  lemma {:induction false} TrimLeftMeans(t: Text) returns (before: Text)
    ensures t == before + TrimLeft(t) && AllSpace(before)
    ensures TrimLeft(t) != [] ==> !IsSpace(TrimLeft(t)[0])
  {
    before := [];
    if t != [] && IsSpace(t[0]) {
      var rest := TrimLeftMeans(t[1..]);
      before := [t[0]] + rest;
    }
  }

  lemma {:induction false} TrimRightMeans(t: Text) returns (after: Text)
    ensures t == TrimRight(t) + after && AllSpace(after)
    ensures TrimRight(t) != [] ==> TrimRight(t)[0] == t[0] && !IsSpace(TrimRight(t)[|TrimRight(t)|-1])
  {
    after := [];
    if t != [] && IsSpace(t[|t|-1]) {
      var rest := TrimRightMeans(t[..|t|-1]);
      after := rest + [t[|t|-1]];
    }
  }

  /** Trimming takes spaces off both ends, and all of them. */
  lemma TrimMeans(t: Text) returns (before: Text, after: Text)
    ensures t == before + Trim(t) + after && AllSpace(before) && AllSpace(after)
    ensures Trim(t) != [] ==> !IsSpace(Trim(t)[0]) && !IsSpace(Trim(t)[|Trim(t)|-1])
  {
    before := TrimLeftMeans(t);
    after := TrimRightMeans(TrimLeft(t));
  }
}
