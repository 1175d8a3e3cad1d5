/** `combinePrefixPatterns`: patterns rewritten and joined, and what the text built
    from them says when it is read back. */
module JoinedPatterns {
  import opened Prelude
  import opened EscapeCodec
  import opened CharClass
  import opened GroupNumbering
  import opened PatternText
  import opened CombinedPattern
  import opened SourceTokens

  // ---- patterns rewritten one after the other ----

  function CounterBefore(tokss: seq<seq<Text>>, k: nat): nat
    requires k <= |tokss|
  {
    if k == 0 then 0 else CounterAfter(tokss[k-1], CounterBefore(tokss, k - 1))
  }

  predicate PatternRewritten(tokss: seq<seq<Text>>, folds: seq<bool>, outs: seq<seq<Text>>, k: nat)
    requires k < |tokss| <= |folds| && k < |outs|
  {
    Rewritten(tokss[k], CounterBefore(tokss, k), folds[k]) == Ok(outs[k])
  }

  /** The first patterns are rewritten, the counter handed from one to the next. */
  ghost predicate RewrittenSoFar(tokss: seq<seq<Text>>, folds: seq<bool>, outs: seq<seq<Text>>) {
    && |outs| <= |tokss| == |folds|
    && forall k :: 0 <= k < |outs| ==> PatternRewritten(tokss, folds, outs, k)
  }

  ghost predicate AllRewritten(tokss: seq<seq<Text>>, folds: seq<bool>, outs: seq<seq<Text>>) {
    && |outs| == |tokss| && RewrittenSoFar(tokss, folds, outs)
    && forall k :: 0 <= k < |tokss| ==> Tokenised(tokss[k]) && |outs[k]| == |tokss[k]|
  }

  ghost predicate AllSound(tokss: seq<seq<Text>>) { forall k :: 0 <= k < |tokss| ==> Sound(tokss[k]) }

  ghost predicate SoundFrom(tokss: seq<seq<Text>>, k: nat) { forall j :: k <= j < |tokss| ==> Sound(tokss[j]) }

  // ---- the text ----

  const SEPARATOR: Text := [124]  // |

  function Piece(out: seq<Text>): Text { NON_CAPTURE + Concat(out) + CLOSE }

  function Separator(k: nat): Text { if k == 0 then [] else SEPARATOR }

  /** The pieces with bars between them, from piece `k` on. */
  function JoinedFrom(outs: seq<seq<Text>>, k: nat): Text
    requires k <= |outs|
    decreases |outs| - k
  {
    if k == |outs| then [] else Separator(k) + Piece(outs[k]) + JoinedFrom(outs, k + 1)
  }

  function Joined(outs: seq<seq<Text>>): Text { JoinedFrom(outs, 0) }

  /** Where piece `k` begins, with its bar. */
  function PieceStart(outs: seq<seq<Text>>, k: nat): nat
    requires k <= |outs|
  {
    if k == 0 then 0 else PieceStart(outs, k - 1) + |Separator(k - 1)| + |Piece(outs[k - 1])|
  }

  /** Where token `i` of pattern `k` begins. */
  function TokenStart(outs: seq<seq<Text>>, k: nat, i: nat): nat
    requires k < |outs| && i <= |outs[k]|
  {
    PieceStart(outs, k) + |Separator(k)| + |NON_CAPTURE| + |Concat(outs[k][..i])|
  }

  lemma ConcatSplits(out: seq<Text>, i: nat)
    requires i <= |out|
    ensures Concat(out) == Concat(out[..i]) + Concat(out[i..])
  {
    hide Concat;
    ConcatAppend(out[..i], out[i..]);
    assert out[..i] + out[i..] == out;
  }

  lemma {:induction false} JoinedSplits(outs: seq<seq<Text>>, k: nat)
    requires k <= |outs|
    ensures PieceStart(outs, k) <= |Joined(outs)| && Joined(outs)[PieceStart(outs, k)..] == JoinedFrom(outs, k)
  {
    hide Piece;
    if k > 0 {
      JoinedSplits(outs, k - 1);
      var front := Separator(k - 1) + Piece(outs[k - 1]);
      assert JoinedFrom(outs, k - 1) == front + JoinedFrom(outs, k);
      assert Joined(outs)[PieceStart(outs, k - 1)..][|front|..] == Joined(outs)[PieceStart(outs, k)..];
    }
  }

  /** The places are those of the joined text. */
  lemma TokenInPlace(outs: seq<seq<Text>>, k: nat, i: nat)
    requires k < |outs| && i < |outs[k]|
    ensures var at := TokenStart(outs, k, i);
            at + |outs[k][i]| <= |Joined(outs)| && Joined(outs)[at..at + |outs[k][i]|] == outs[k][i]
  {
    hide Concat, Joined, PieceStart, JoinedFrom, Separator;
    var out, s := outs[k], PieceStart(outs, k);
    JoinedSplits(outs, k);
    ConcatSplits(out, i);
    TokenInFront(out, i);
    JoinedUnfolds(outs, k);
    var rest := CLOSE + JoinedFrom(outs, k + 1);
    Regrouped(Separator(k), NON_CAPTURE, Concat(out[..i]), out[i], Concat(out[i + 1..]), rest);
    PartBehind(Joined(outs), s, Separator(k) + NON_CAPTURE + Concat(out[..i]), out[i], Concat(out[i + 1..]) + rest);
  }

  lemma JoinedUnfolds(outs: seq<seq<Text>>, k: nat)
    requires k < |outs|
    ensures JoinedFrom(outs, k) == Separator(k) + (NON_CAPTURE + (Concat(outs[k]) + (CLOSE + JoinedFrom(outs, k + 1))))
  {
    hide Concat, Separator;
    var c, rest := Concat(outs[k]), JoinedFrom(outs, k + 1);
    Reassociate(NON_CAPTURE + c, CLOSE, rest);
    Reassociate(NON_CAPTURE, c, CLOSE + rest);
    Reassociate(Separator(k), NON_CAPTURE + c + CLOSE, rest);
  }

  lemma Regrouped(a: Text, b: Text, c: Text, d: Text, e: Text, f: Text)
    ensures a + (b + (c + (d + e) + f)) == (a + b + c) + (d + (e + f))
  {}

  lemma PartBehind(t: Text, s: nat, front: Text, part: Text, behind: Text)
    requires s <= |t| && t[s..] == front + (part + behind)
    ensures s + |front| + |part| <= |t| && t[s + |front|..s + |front| + |part|] == part
  {
    assert t[s + |front|..s + |front| + |part|] == t[s..][|front|..][..|part|];
    assert (front + (part + behind))[|front|..] == part + behind;
  }

  lemma TokenInFront(out: seq<Text>, i: nat)
    requires i < |out|
    ensures Concat(out[i..]) == out[i] + Concat(out[i + 1..])
  {
    assert out[i..][1..] == out[i + 1..];
  }

  // ---- reading the text back ----

  function BarAt(k: nat, at: nat): seq<Mark> { if k == 0 then [] else [Mark(at, Bar)] }

  /** The marks the joined text is meant to have from pattern `k` on. */
  function WantedAll(tokss: seq<seq<Text>>, folds: seq<bool>, outs: seq<seq<Text>>, k: nat, at: nat): seq<Mark>
    requires k <= |tokss| == |outs| == |folds| && forall j :: 0 <= j < |tokss| ==> |outs[j]| == |tokss[j]|
    decreases |tokss| - k
  {
    if k == |tokss| then []
    else
      var open := at + |Separator(k)|;
      var close := open + 3 + |Concat(outs[k])|;
      BarAt(k, at) + ([Mark(open, Group(58))]
      + (WantedFrom(tokss[k], CounterBefore(tokss, k), folds[k], outs[k], 0, open + 3)
      + ([Mark(close, Close)] + WantedAll(tokss, folds, outs, k + 1, close + 1))))
  }

  lemma FromBoth(a: seq<Mark>, b: seq<Mark>, at: nat, later: nat)
    requires at <= later && AllFrom(a, at) && AllFrom(b, later)
    ensures AllFrom(a + b, at)
  {}

  lemma {:induction false} WantedAllFrom(tokss: seq<seq<Text>>, folds: seq<bool>, outs: seq<seq<Text>>, k: nat, at: nat)
    requires k <= |tokss| == |outs| == |folds| && forall j :: 0 <= j < |tokss| ==> |outs[j]| == |tokss[j]|
    ensures AllFrom(WantedAll(tokss, folds, outs, k, at), at)
    decreases |tokss| - k
  {
    hide WantedFrom, Concat, CounterBefore, Separator, AllFrom;
    if k < |tokss| {
      var open := at + |Separator(k)|;
      var close := open + 3 + |Concat(outs[k])|;
      var bar, group, end := BarAt(k, at), [Mark(open, Group(58))], [Mark(close, Kind.Close)];
      assert AllFrom(bar, at) && AllFrom(group, open) && AllFrom(end, close) by { OneMarkFrom(k, at, open, close); }
      var wanted := WantedFrom(tokss[k], CounterBefore(tokss, k), folds[k], outs[k], 0, open + 3);
      var rest := WantedAll(tokss, folds, outs, k + 1, close + 1);
      WantedIsFrom(tokss[k], CounterBefore(tokss, k), folds[k], outs[k], 0, open + 3);
      WantedAllFrom(tokss, folds, outs, k + 1, close + 1);
      FromBoth(end, rest, close, close + 1);
      FromBoth(wanted, end + rest, open + 3, close);
      FromBoth(group, wanted + (end + rest), open, open + 3);
      FromBoth(bar, group + (wanted + (end + rest)), at, open);
    } else {
      assert AllFrom([], at) by { BarMarksFrom([], at); }
    }
  }

  lemma OneMarkFrom(k: nat, at: nat, open: nat, close: nat)
    ensures AllFrom(BarAt(k, at), at) && AllFrom([Mark(open, Group(58))], open) && AllFrom([Mark(close, Kind.Close)], close)
  {}

  lemma SeparatorReads(k: nat, rest: Text, at: nat)
    ensures Scan(Separator(k) + rest, at) == BarAt(k, at) + Scan(rest, at + |Separator(k)|)
  {
    hide Scan, BarMarks;
    if k == 0 {
      assert Separator(k) + rest == rest;
    } else {
      PlainUnitSplits(124, rest, at);
      BarMarksCons(124, [], at);
      NoBars(at + 1);
      assert SEPARATOR == [124] + [];
    }
  }

  lemma GroupReads(rest: Text, at: nat)
    ensures Scan(NON_CAPTURE + rest, at) == [Mark(at, Group(58))] + Scan(rest, at + 3)
    ensures Scan(CLOSE + rest, at) == [Mark(at, Kind.Close)] + Scan(rest, at + 1)
  {
    hide Scan;
    GroupsAreTokens();
    TokenDelimited(NON_CAPTURE, rest);
    ScanStep(NON_CAPTURE, rest, at);
    ScanStep(CLOSE, rest, at);
  }

  /** Where one text is meant, another must not be. */
  lemma SameWrapped(bar: seq<Mark>, group: seq<Mark>, text: seq<Mark>, wanted: seq<Mark>, close: seq<Mark>,
                    rest: seq<Mark>, wantedRest: seq<Mark>, sound: bool)
    requires sound ==> text == wanted + (close + rest)
    requires !sound ==> text != wanted + (close + wantedRest)
    ensures sound && rest == wantedRest <==> bar + (group + text) == bar + (group + (wanted + (close + wantedRest)))
  {
    SameBehind(bar, group + text, group + (wanted + (close + wantedRest)));
    SameBehind(group, text, wanted + (close + wantedRest));
    SameBehind(wanted, close + rest, close + wantedRest);
    SameBehind(close, rest, wantedRest);
  }

  lemma PieceReads(outs: seq<seq<Text>>, k: nat, at: nat)
    requires k < |outs|
    ensures var open := at + |Separator(k)|;
            var close := open + 3 + |Concat(outs[k])|;
            var rest := JoinedFrom(outs, k + 1);
            && Scan(JoinedFrom(outs, k), at)
               == BarAt(k, at) + ([Mark(open, Group(58))] + Scan(Concat(outs[k]) + (CLOSE + rest), open + 3))
            && Scan(CLOSE + rest, close) == [Mark(close, Kind.Close)] + Scan(rest, close + 1)
  {
    hide Scan, Concat, BarAt, Separator, JoinedFrom;
    var rest := JoinedFrom(outs, k + 1);
    var text := Concat(outs[k]) + (CLOSE + rest);
    JoinedUnfolds(outs, k);
    SeparatorReads(k, NON_CAPTURE + text, at);
    GroupReads(text, at + |Separator(k)|);
    GroupReads(rest, at + |Separator(k)| + 3 + |Concat(outs[k])|);
  }

  lemma SoundOneByOne(tokss: seq<seq<Text>>, k: nat)
    requires k < |tokss|
    ensures SoundFrom(tokss, k) <==> Sound(tokss[k]) && SoundFrom(tokss, k + 1)
  {
    hide Sound;
  }

  lemma WantedOneByOne(tokss: seq<seq<Text>>, folds: seq<bool>, outs: seq<seq<Text>>, k: nat, at: nat)
    requires AllRewritten(tokss, folds, outs) && k < |tokss|
    ensures var open := at + |Separator(k)|;
            var close := open + 3 + |Concat(outs[k])|;
            WantedAll(tokss, folds, outs, k, at)
            == BarAt(k, at) + ([Mark(open, Group(58))]
               + (WantedFrom(tokss[k], CounterBefore(tokss, k), folds[k], outs[k], 0, open + 3)
               + ([Mark(close, Kind.Close)] + WantedAll(tokss, folds, outs, k + 1, close + 1))))
  {
    hide WantedFrom, Concat, CounterBefore, BarAt, Separator, Tokenised;
  }

  lemma NothingJoined(tokss: seq<seq<Text>>, folds: seq<bool>, outs: seq<seq<Text>>, at: nat)
    requires AllRewritten(tokss, folds, outs)
    ensures SoundFrom(tokss, |tokss|) && Scan(JoinedFrom(outs, |tokss|), at) == WantedAll(tokss, folds, outs, |tokss|, at) == []
  {}

  /** From pattern `k` on the joined text reads as meant just if no token breaks its
      pattern. */
  lemma {:induction false} JoinedReads(tokss: seq<seq<Text>>, folds: seq<bool>, outs: seq<seq<Text>>, k: nat, at: nat)
    requires AllRewritten(tokss, folds, outs) && k <= |tokss|
    ensures SoundFrom(tokss, k) <==> Scan(JoinedFrom(outs, k), at) == WantedAll(tokss, folds, outs, k, at)
    decreases |tokss| - k
  {
    hide Scan, Sound, SoundFrom, Rewritten, PatternRewritten, Tokenised, Concat, WantedFrom, WantedAll, CounterBefore, JoinedFrom,
         BarAt, Separator, Piece;
    if k == |tokss| {
      NothingJoined(tokss, folds, outs, at);
    } else {
      var rest := JoinedFrom(outs, k + 1);
      var open := at + |Separator(k)|;
      var close := open + 3 + |Concat(outs[k])|;
      var wantedRest := WantedAll(tokss, folds, outs, k + 1, close + 1);
      var wanted := WantedFrom(tokss[k], CounterBefore(tokss, k), folds[k], outs[k], 0, open + 3);
      PieceReads(outs, k, at);
      WantedAllFrom(tokss, folds, outs, k + 1, close + 1);
      OnePatternReads(tokss, folds, outs, k, open + 3, CLOSE + rest, [Mark(close, Kind.Close)] + wantedRest);
      JoinedReads(tokss, folds, outs, k + 1, close + 1);
      SoundOneByOne(tokss, k);
      WantedOneByOne(tokss, folds, outs, k, at);
      SameWrapped(BarAt(k, at), [Mark(open, Group(58))], Scan(Concat(outs[k]) + (CLOSE + rest), open + 3), wanted,
                  [Mark(close, Kind.Close)], Scan(rest, close + 1), wantedRest, Sound(tokss[k]));
    }
  }

  lemma OnePatternReads(tokss: seq<seq<Text>>, folds: seq<bool>, outs: seq<seq<Text>>, k: nat, at: nat, tail: Text, after: seq<Mark>)
    requires AllRewritten(tokss, folds, outs) && k < |tokss| && tail != [] && tail[0] == 41
    requires AllFrom(after, at + |Concat(outs[k])|)
    ensures var w := WantedFrom(tokss[k], CounterBefore(tokss, k), folds[k], outs[k], 0, at);
            && (Sound(tokss[k]) ==> Scan(Concat(outs[k]) + tail, at) == w + Scan(tail, at + |Concat(outs[k])|))
            && (!Sound(tokss[k]) ==> Scan(Concat(outs[k]) + tail, at) != w + after)
  {
    hide Scan, Sound, Tokenised, Rewritten, Concat, WantedFrom;
    assert PatternRewritten(tokss, folds, outs, k);
    assert outs[k][0..] == outs[k];
    PatternReads(tokss[k], CounterBefore(tokss, k), folds[k], outs[k], 0, at, tail, after);
  }

  /** The joined text, read back, has just the groups, ends, alternatives, classes and
      references that are meant, each in its place, if and only if no token of any
      pattern breaks it. */
  lemma CombiningKeepsReferences(tokss: seq<seq<Text>>, folds: seq<bool>, outs: seq<seq<Text>>)
    requires AllRewritten(tokss, folds, outs)
    ensures AllSound(tokss) <==> Scan(Joined(outs), 0) == WantedAll(tokss, folds, outs, 0, 0)
  {
    hide Scan, Sound, AllRewritten, JoinedFrom, WantedAll;
    JoinedReads(tokss, folds, outs, 0, 0);
  }

  // ---- the groups of the joined text, and what its references denote ----

  /** The places of the groups that capture, in order. */
  function Captures(marks: seq<Mark>): seq<nat> {
    if marks == [] then [] else (if marks[0].kind.Capture? then [marks[0].at] else []) + Captures(marks[1..])
  }

  lemma {:induction false} CapturesOfBoth(a: seq<Mark>, b: seq<Mark>)
    ensures Captures(a + b) == Captures(a) + Captures(b)
  {
    hide Captures;
    if a == [] {
      assert a + b == b;
      assert Captures([]) == [] by { NoCaptures([]); }
    } else {
      CapturesOfBoth(a[1..], b);
      CapturesCons(a[0], a[1..]);
      CapturesCons(a[0], a[1..] + b);
      assert a == [a[0]] + a[1..] && a + b == [a[0]] + (a[1..] + b);
    }
  }

  lemma CapturesCons(m: Mark, marks: seq<Mark>)
    ensures Captures([m] + marks) == (if m.kind.Capture? then [m.at] else []) + Captures(marks)
  {
    assert ([m] + marks)[1..] == marks;
  }

  lemma {:induction false} NoCaptures(marks: seq<Mark>)
    requires forall i :: 0 <= i < |marks| ==> !marks[i].kind.Capture?
    ensures Captures(marks) == []
  {
    if marks != [] { NoCaptures(marks[1..]); }
  }

  lemma {:induction false} FoldedCapturesNothing(t: Text, at: nat)
    ensures forall i :: 0 <= i < |FoldedMarks(t, at)| ==> !FoldedMarks(t, at)[i].kind.Capture?
  {
    if t != [] {
      FoldedCapturesNothing(t[1..], at + 4);
      FoldedCapturesNothing(t[1..], at + 1);
      BarsAreBars([t[0]], at);
    }
  }

  /** Only referenced groups are meant to capture. */
  lemma WantedCaptures(toks: seq<Text>, x: nat, fold: bool, i: nat, at: nat)
    requires i < |toks| && IsPatternToken(toks[i])
    ensures Captures(Wanted(toks, x, fold, i, at))
         == if toks[i] == OPEN && Referenced(toks, Opens(toks, i) + 1) then [at] else []
  {
    hide References, NumericValue, Opens, PatternTokenLength, Decimal, NumberOf, BarMarks;
    var tok, marks := toks[i], Wanted(toks, x, fold, i, at);
    OpenIsNotNumeric();
    if tok != OPEN {
      FoldedCapturesNothing(tok, at);
      BarsAreBars(tok, at);
      if tok[0] in {40, 41, 94} { SyntaxToken(tok); }
      NoCaptures(marks);
    }
  }

  /** Of the groups that capture from token `i` on, that of token `t` comes after those
      counted in between. */
  lemma {:induction false} CaptureOfToken(toks: seq<Text>, x: nat, fold: bool, out: seq<Text>, i: nat, at: nat, t: nat)
    requires Tokenised(toks) && i <= t <= |toks| == |out|
    ensures NumberOf(toks, x, Opens(toks, t)) >= NumberOf(toks, x, Opens(toks, i))
    ensures var caps, n := Captures(WantedFrom(toks, x, fold, out, i, at)), NumberOf(toks, x, Opens(toks, t)) - NumberOf(toks, x, Opens(toks, i));
            && (t == |toks| ==> |caps| == n)
            && (t < |toks| && toks[t] == OPEN && Referenced(toks, Opens(toks, t) + 1) ==>
                  n < |caps| && caps[n] == at + |Concat(out[i..t])|)
    decreases |toks| - i
  {
    hide Wanted, Referenced, PatternTokenLength, Captures, Concat, NumberOf, Opens;
    if i == |toks| {
      assert Captures([]) == [] by { NoCaptures([]); }
    } else {
      var here, later := Wanted(toks, x, fold, i, at), WantedFrom(toks, x, fold, out, i + 1, at + |out[i]|);
      CapturesOfBoth(here, later);
      WantedCaptures(toks, x, fold, i, at);
      NumbersStep(toks, x, i);
      if i < t {
        CaptureOfToken(toks, x, fold, out, i + 1, at + |out[i]|, t);
        ConcatStep(out, i, t);
      } else {
        NoneBetween(out, i);
      }
    }
  }

  lemma NumbersStep(toks: seq<Text>, x: nat, i: nat)
    requires i < |toks|
    ensures NumberOf(toks, x, Opens(toks, i + 1))
         == NumberOf(toks, x, Opens(toks, i)) + if toks[i] == OPEN && Referenced(toks, Opens(toks, i) + 1) then 1 else 0
  {
    hide Referenced;
  }

  lemma ConcatStep(out: seq<Text>, i: nat, t: nat)
    requires i < t <= |out|
    ensures Concat(out[i..t]) == out[i] + Concat(out[i + 1..t])
  {
    assert out[i..t][1..] == out[i + 1..t];
  }

  lemma NoneBetween(out: seq<Text>, i: nat)
    requires i <= |out|
    ensures Concat(out[i..i]) == []
  {}

  lemma CapturesOfLayers(bar: seq<Mark>, group: seq<Mark>, wanted: seq<Mark>, close: seq<Mark>, rest: seq<Mark>)
    requires forall m :: m in bar + group + close ==> !m.kind.Capture?
    ensures Captures(bar + (group + (wanted + (close + rest)))) == Captures(wanted) + Captures(rest)
  {
    hide Captures;
    CapturesOfBoth(bar, group + (wanted + (close + rest)));
    CapturesOfBoth(group, wanted + (close + rest));
    CapturesOfBoth(wanted, close + rest);
    CapturesOfBoth(close, rest);
    NoCaptures(bar);
    NoCaptures(group);
    NoCaptures(close);
  }

  lemma CapturesOfWantedAll(tokss: seq<seq<Text>>, folds: seq<bool>, outs: seq<seq<Text>>, k: nat, at: nat)
    requires k < |tokss| == |outs| == |folds| && forall j :: 0 <= j < |tokss| ==> |outs[j]| == |tokss[j]|
    ensures Captures(WantedAll(tokss, folds, outs, k, at))
         == Captures(WantedFrom(tokss[k], CounterBefore(tokss, k), folds[k], outs[k], 0, at + |Separator(k)| + 3))
            + Captures(WantedAll(tokss, folds, outs, k + 1, at + |Separator(k)| + |Piece(outs[k])|))
  {
    hide WantedFrom, Captures, Concat, CounterAfter, Separator;
    var open := at + |Separator(k)|;
    var close := open + 3 + |Concat(outs[k])|;
    assert open + |Piece(outs[k])| == close + 1;
    CapturesOfLayers(BarAt(k, at), [Mark(open, Group(58))],
                     WantedFrom(tokss[k], CounterBefore(tokss, k), folds[k], outs[k], 0, open + 3),
                     [Mark(close, Kind.Close)], WantedAll(tokss, folds, outs, k + 1, close + 1));
  }

  lemma {:induction false} CountersGrow(tokss: seq<seq<Text>>, k: nat, p: nat)
    requires k <= p <= |tokss|
    ensures CounterBefore(tokss, k) <= CounterBefore(tokss, p)
    decreases p - k
  {
    if k < p { CountersGrow(tokss, k, p - 1); }
  }

  lemma NumberFromNothing(toks: seq<Text>, x: nat)
    ensures NumberOf(toks, x, Opens(toks, 0)) == x
  {}

  /** All groups that capture are counted, from pattern `k` on. */
  lemma {:induction false} CapturesCounted(tokss: seq<seq<Text>>, folds: seq<bool>, outs: seq<seq<Text>>, k: nat, at: nat)
    requires AllRewritten(tokss, folds, outs) && k <= |tokss|
    ensures CounterBefore(tokss, k) + |Captures(WantedAll(tokss, folds, outs, k, at))| == CounterBefore(tokss, |tokss|)
    decreases |tokss| - k
  {
    hide WantedFrom, Tokenised, WantedAll, Captures, NumberOf, Opens;
    if k < |tokss| {
      var at' := at + |Separator(k)| + |Piece(outs[k])|;
      var toks, x := tokss[k], CounterBefore(tokss, k);
      CapturesOfWantedAll(tokss, folds, outs, k, at);
      CapturesCounted(tokss, folds, outs, k + 1, at');
      CaptureOfToken(toks, x, folds[k], outs[k], 0, at + |Separator(k)| + 3, |toks|);
      NumberFromNothing(toks, x);
    } else {
      NothingWanted(tokss, folds, outs, at);
    }
  }

  lemma NothingWanted(tokss: seq<seq<Text>>, folds: seq<bool>, outs: seq<seq<Text>>, at: nat)
    requires AllRewritten(tokss, folds, outs)
    ensures Captures(WantedAll(tokss, folds, outs, |tokss|, at)) == []
  {}

  /** The group of token `t` of pattern `p`, counted among those from pattern `k` on. */
  lemma {:induction false} CaptureInPlace(tokss: seq<seq<Text>>, folds: seq<bool>, outs: seq<seq<Text>>, k: nat, p: nat, t: nat)
    requires AllRewritten(tokss, folds, outs) && k <= p < |tokss| && t < |tokss[p]|
    requires tokss[p][t] == OPEN && Referenced(tokss[p], Opens(tokss[p], t) + 1)
    ensures var caps := Captures(WantedAll(tokss, folds, outs, k, PieceStart(outs, k)));
            var n := NumberOf(tokss[p], CounterBefore(tokss, p), Opens(tokss[p], t)) - CounterBefore(tokss, k);
            0 <= n < |caps| && caps[n] == TokenStart(outs, p, t)
    decreases p - k
  {
    hide WantedFrom, Tokenised, WantedAll, Captures, NumberOf, Opens, Referenced, Concat, Rewritten, PatternRewritten, Separator;
    var at := PieceStart(outs, k);
    var open := at + |Separator(k)|;
    var toks, x := tokss[k], CounterBefore(tokss, k);
    var here := Captures(WantedFrom(toks, x, folds[k], outs[k], 0, open + 3));
    CapturesOfWantedAll(tokss, folds, outs, k, at);
    NumberFromNothing(toks, x);
    assert Tokenised(toks);
    if k < p {
      CaptureInPlace(tokss, folds, outs, k + 1, p, t);
      CaptureOfToken(toks, x, folds[k], outs[k], 0, open + 3, |toks|);
      assert |here| == CounterBefore(tokss, k + 1) - x;
    } else {
      CaptureOfToken(toks, x, folds[k], outs[k], 0, open + 3, t);
    }
  }

  /** The joined text captures just as many groups as numbers were handed out. */
  lemma CombinedGroups(tokss: seq<seq<Text>>, folds: seq<bool>, outs: seq<seq<Text>>)
    requires AllRewritten(tokss, folds, outs) && AllSound(tokss)
    ensures |Captures(Scan(Joined(outs), 0))| == CounterBefore(tokss, |tokss|)
  {
    hide Scan, Captures, AllRewritten, AllSound, Joined, WantedAll, CounterAfter;
    CombiningKeepsReferences(tokss, folds, outs);
    CapturesCounted(tokss, folds, outs, 0, 0);
  }

  // ---- references ----

  lemma {:induction false} WantedHas(toks: seq<Text>, x: nat, fold: bool, out: seq<Text>, i: nat, at: nat, t: nat)
    requires i <= t < |toks| == |out|
    ensures forall m :: m in Wanted(toks, x, fold, t, at + |Concat(out[i..t])|) ==> m in WantedFrom(toks, x, fold, out, i, at)
    decreases |toks| - i
  {
    hide Wanted, Concat;
    if i < t {
      WantedHas(toks, x, fold, out, i + 1, at + |out[i]|, t);
      ConcatStep(out, i, t);
    } else {
      NoneBetween(out, i);
    }
  }

  lemma {:induction false} WantedAllHas(tokss: seq<seq<Text>>, folds: seq<bool>, outs: seq<seq<Text>>, k: nat, p: nat, t: nat)
    requires AllRewritten(tokss, folds, outs) && k <= p < |tokss| && t < |tokss[p]|
    ensures forall m :: m in Wanted(tokss[p], CounterBefore(tokss, p), folds[p], t, TokenStart(outs, p, t))
                    ==> m in WantedAll(tokss, folds, outs, k, PieceStart(outs, k))
    decreases p - k
  {
    hide Wanted, WantedFrom, WantedAll, Tokenised, CounterBefore, Rewritten, PatternRewritten, Separator, Concat, BarAt;
    var at := PieceStart(outs, k);
    var open := at + |Separator(k)|;
    var close := open + 3 + |Concat(outs[k])|;
    WantedOneByOne(tokss, folds, outs, k, at);
    if k < p {
      assert PieceStart(outs, k + 1) == close + 1;
      WantedAllHas(tokss, folds, outs, k + 1, p, t);
    } else {
      WantedHas(tokss[k], CounterBefore(tokss, k), folds[k], outs[k], 0, open + 3, t);
      assert TokenStart(outs, k, t) == open + 3 + |Concat(outs[k][0..t])| by { assert outs[k][..t] == outs[k][0..t]; }
    }
  }

  /** In the joined text every reference stands where its token came to stand, and the
      group it has the number of is the one it referred to. */
  lemma ReferencesKeepTheirGroups(tokss: seq<seq<Text>>, folds: seq<bool>, outs: seq<seq<Text>>, k: nat, i: nat)
    requires AllRewritten(tokss, folds, outs) && AllSound(tokss)
    requires k < |tokss| && i < |tokss[k]| && RefersTo(tokss[k], i)
    ensures var n := NumberOf(tokss[k], CounterBefore(tokss, k), NumericValue(tokss[k][i]));
            var marks := Scan(Joined(outs), 0);
            && Mark(TokenStart(outs, k, i), Numeral(Decimal(n))) in marks
            && 0 < n <= |Captures(marks)|
            && Captures(marks)[n - 1] == TokenStart(outs, k, Target(tokss[k], NumericValue(tokss[k][i])))
  {
    hide Scan, Captures, AllRewritten, Joined, WantedAll, CounterAfter, TokenStart, Opens, Decimal;
    var toks, v := tokss[k], NumericValue(tokss[k][i]);
    CombiningKeepsReferences(tokss, folds, outs);
    RefersBack(toks, i);
    WantedAllHas(tokss, folds, outs, 0, k, i);
    CaptureInPlace(tokss, folds, outs, 0, k, Target(toks, v));
  }

  /** In a pattern that nothing breaks, what refers to a group refers back to it. */
  lemma RefersBack(toks: seq<Text>, i: nat)
    requires Sound(toks) && i < |toks| && RefersTo(toks, i)
    ensures IsBackRef(toks, i) && Referenced(toks, NumericValue(toks[i]))
  {
    hide NumericValue, RefersTo, Opens, Following;
    assert !Breaks(toks, i);
    assert IsBackRef(toks, i) by { assert NumericValue(toks[i]) > 0 by { PositiveReference(toks, i); } }
    BackRefReferences(toks, i, |toks|);
  }

  lemma PositiveReference(toks: seq<Text>, i: nat)
    requires i < |toks| && RefersTo(toks, i)
    ensures NumericValue(toks[i]) > 0
  {}

  /** Some token from `i` on gives the mark. */
  lemma {:induction false} TokenOfMark(toks: seq<Text>, x: nat, fold: bool, out: seq<Text>, i: nat, at: nat, m: Mark) returns (t: nat)
    requires i <= |toks| == |out| && m in WantedFrom(toks, x, fold, out, i, at)
    ensures i <= t < |toks| && m in Wanted(toks, x, fold, t, at + |Concat(out[i..t])|)
    decreases |toks| - i
  {
    hide Wanted, Concat;
    if m in Wanted(toks, x, fold, i, at) {
      t := i;
      NoneBetween(out, i);
    } else {
      t := TokenOfMark(toks, x, fold, out, i + 1, at + |out[i]|, m);
      ConcatStep(out, i, t);
    }
  }

  /** An escape with digits is meant for a reference, or a zero kept as it is. */
  lemma NumeralWanted(toks: seq<Text>, x: nat, fold: bool, t: nat, at: nat, m: Mark)
    requires t < |toks| && IsPatternToken(toks[t]) && m in Wanted(toks, x, fold, t, at) && m.kind.Numeral?
    ensures m.at == at && (RefersTo(toks, t) || (IsNumeral(toks[t]) && NumericValue(toks[t]) == 0))
  {
    hide NumericValue, Opens, References, Decimal, NumberOf, PatternTokenLength;
    FoldedHasNoNumerals(toks[t], at);
    BarsAreBars(toks[t], at);
    TokenValue(toks[t]);
  }

  lemma {:induction false} FoldedHasNoNumerals(t: Text, at: nat)
    ensures forall i :: 0 <= i < |FoldedMarks(t, at)| ==> !FoldedMarks(t, at)[i].kind.Numeral?
  {
    if t != [] {
      FoldedHasNoNumerals(t[1..], at + 4);
      FoldedHasNoNumerals(t[1..], at + 1);
      BarsAreBars([t[0]], at);
    }
  }

  lemma {:induction false} PatternOfNumeral(tokss: seq<seq<Text>>, folds: seq<bool>, outs: seq<seq<Text>>, k: nat, m: Mark)
    returns (p: nat, t: nat)
    requires AllRewritten(tokss, folds, outs) && k <= |tokss|
    requires m in WantedAll(tokss, folds, outs, k, PieceStart(outs, k)) && m.kind.Numeral?
    ensures p < |tokss| && t < |tokss[p]| && m in Wanted(tokss[p], CounterBefore(tokss, p), folds[p], t, TokenStart(outs, p, t))
    decreases |tokss| - k
  {
    hide Wanted, WantedFrom, WantedAll, Tokenised, CounterBefore, Rewritten, PatternRewritten, Separator, Concat;
    if k == |tokss| {
      NothingJoined(tokss, folds, outs, PieceStart(outs, k));
      assert false;
    } else {
      var at := PieceStart(outs, k);
      var open := at + |Separator(k)|;
      var close := open + 3 + |Concat(outs[k])|;
      WantedOneByOne(tokss, folds, outs, k, at);
      assert PieceStart(outs, k + 1) == close + 1;
      if m in WantedFrom(tokss[k], CounterBefore(tokss, k), folds[k], outs[k], 0, open + 3) {
        t := TokenOfMark(tokss[k], CounterBefore(tokss, k), folds[k], outs[k], 0, open + 3, m);
        p := k;
        assert outs[k][..t] == outs[k][0..t];
      } else {
        p, t := PatternOfNumeral(tokss, folds, outs, k + 1, m);
      }
    }
  }

  /** The joined text has no other references: an escape with digits in it is a
      reference of its pattern, or a zero the pattern has there. */
  lemma OnlyReferencesRefer(tokss: seq<seq<Text>>, folds: seq<bool>, outs: seq<seq<Text>>, m: Mark) returns (k: nat, i: nat)
    requires AllRewritten(tokss, folds, outs) && AllSound(tokss)
    requires m in Scan(Joined(outs), 0) && m.kind.Numeral?
    ensures k < |tokss| && i < |tokss[k]| && m.at == TokenStart(outs, k, i)
    ensures RefersTo(tokss[k], i) || (IsNumeral(tokss[k][i]) && NumericValue(tokss[k][i]) == 0)
  {
    hide Scan, AllSound, Joined, WantedAll, CounterAfter, Wanted, RefersTo, IsNumeral, NumericValue, Rewritten, PatternRewritten, TokenStart;
    CombiningKeepsReferences(tokss, folds, outs);
    k, i := PatternOfNumeral(tokss, folds, outs, 0, m);
    assert Tokenised(tokss[k]);
    NumeralWanted(tokss[k], CounterBefore(tokss, k), folds[k], i, TokenStart(outs, k, i), m);
  }

  // ---- the source's method ----

  /** A regular expression as the method reads it. */
  datatype Pattern = Pattern(source: Text, ignoreCase: bool, isGlobal: bool, multiline: bool)

  datatype CombineError = BadFlags(k: nat) | NoMatch(k: nat) | BadClass(k: nat, error: FoldError)

  /** The joined pattern and its flag for case. */
  datatype Combination = Combination(text: Text, ignoreCase: bool)

  predicate HasLetter(t: Text) { exists i :: 0 <= i < |t| && IsLetter(t[i]) }

  function LowerUnit(c: CodeUnit): CodeUnit { if 65 <= c <= 90 then c + 32 else c }

  /** The source without its escapes: `\u` and `\x` with their digits, in either case, and
      a backslash with any other character but these letters. */
  function Unescaped(s: Text): (t: Text)
    ensures |t| <= |s|
  {
    if s == [] then []
    else if s[0] == BACKSLASH && |s| >= 6 && LowerUnit(s[1]) == 117 && IsHex(s[2]) && IsHex(s[3]) && IsHex(s[4]) && IsHex(s[5])
      then Unescaped(s[6..])
    else if s[0] == BACKSLASH && |s| >= 4 && LowerUnit(s[1]) == 120 && IsHex(s[2]) && IsHex(s[3]) then Unescaped(s[4..])
    else if s[0] == BACKSLASH && |s| >= 2 && LowerUnit(s[1]) !in {117, 120} then Unescaped(s[2..])
    else [s[0]] + Unescaped(s[1..])
  }

  /** What the replacement takes away:
      `/\\u[\da-f]{4}|\\x[\da-f]{2}|\\[^UXux]/gi`. */
  predicate IsEscape(t: Text) {
    || (|t| == 6 && t[0] == 92 && t[1] in {85, 117} && AllHex(t[2..]))
    || (|t| == 4 && t[0] == 92 && t[1] in {88, 120} && AllHex(t[2..]))
    || (|t| == 2 && t[0] == 92 && t[1] !in {85, 88, 117, 120})
  }

  ghost predicate NoEscapeStarts(t: Text) { forall m :: 0 <= m <= |t| ==> !IsEscape(t[..m]) }

  function KeptPieces(pieces: seq<Text>, kept: seq<bool>): Text
    requires |pieces| == |kept|
  {
    if pieces == [] then [] else (if kept[0] then pieces[0] else []) + KeptPieces(pieces[1..], kept[1..])
  }

  /** Each piece is an escape, or one unit at which no escape starts. */
  ghost predicate PiecesCut(pieces: seq<Text>, kept: seq<bool>) {
    |pieces| == |kept|
    && forall i :: 0 <= i < |pieces| ==>
         if kept[i] then |pieces[i]| == 1 && NoEscapeStarts(Concat(pieces[i..])) else IsEscape(pieces[i])
  }

  lemma CutMore(piece: Text, keep: bool, pieces: seq<Text>, kept: seq<bool>)
    requires PiecesCut(pieces, kept)
    requires if keep then |piece| == 1 && NoEscapeStarts(piece + Concat(pieces)) else IsEscape(piece)
    ensures PiecesCut([piece] + pieces, [keep] + kept)
    ensures Concat([piece] + pieces) == piece + Concat(pieces)
    ensures KeptPieces([piece] + pieces, [keep] + kept) == (if keep then piece else []) + KeptPieces(pieces, kept)
  {
    hide NoEscapeStarts, IsEscape;
    var all, marks := [piece] + pieces, [keep] + kept;
    assert all[1..] == pieces && marks[1..] == kept && all[0..] == all;
    forall i | 0 <= i < |all|
      ensures if marks[i] then |all[i]| == 1 && NoEscapeStarts(Concat(all[i..])) else IsEscape(all[i])
    {
      if i > 0 { assert all[i] == pieces[i - 1] && marks[i] == kept[i - 1] && all[i..] == pieces[i - 1..]; }
    }
  }

  /** How long the escape at the front is, 0 where none starts. */
  function EscapeLength(s: Text): (n: nat)
    ensures n <= |s|
  {
    if s == [] || s[0] != BACKSLASH then 0
    else if |s| >= 6 && LowerUnit(s[1]) == 117 && IsHex(s[2]) && IsHex(s[3]) && IsHex(s[4]) && IsHex(s[5]) then 6
    else if |s| >= 4 && LowerUnit(s[1]) == 120 && IsHex(s[2]) && IsHex(s[3]) then 4
    else if |s| >= 2 && LowerUnit(s[1]) !in {117, 120} then 2
    else 0
  }

  lemma EscapeLengthMeans(s: Text)
    ensures EscapeLength(s) > 0 ==> IsEscape(s[..EscapeLength(s)])
    ensures EscapeLength(s) == 0 ==> NoEscapeStarts(s)
  {
    var n := EscapeLength(s);
    if n > 0 {
      var t := s[..n];
      assert t[0] == s[0] && t[1] == s[1];
      if n >= 4 { assert forall i :: 0 <= i < n - 2 ==> t[2..][i] == s[2 + i]; }
    } else {
      forall m | 0 <= m <= |s| ensures !IsEscape(s[..m]) { NoEscapeOf(s, m); }
    }
  }

  lemma NoEscapeOf(s: Text, m: nat)
    requires EscapeLength(s) == 0 && m <= |s|
    ensures !IsEscape(s[..m])
  {
    var t := s[..m];
    if m >= 2 { assert t[0] == s[0] && t[1] == s[1]; }
    if m == 6 {
      var u := t[2..];
      assert u[0] == s[2] && u[1] == s[3] && u[2] == s[4] && u[3] == s[5];
    }
    if m == 4 {
      var u := t[2..];
      assert u[0] == s[2] && u[1] == s[3];
    }
  }

  lemma UnescapedStep(s: Text)
    requires s != []
    ensures Unescaped(s) == if EscapeLength(s) > 0 then Unescaped(s[EscapeLength(s)..]) else [s[0]] + Unescaped(s[1..])
  {}

  /** What is left of a source are its units outside escapes, which are found from left
      to right. */
  lemma {:induction false} UnescapedMeans(s: Text) returns (pieces: seq<Text>, kept: seq<bool>)
    ensures PiecesCut(pieces, kept) && Concat(pieces) == s && Unescaped(s) == KeptPieces(pieces, kept)
    decreases |s|
  {
    hide Unescaped, EscapeLength, IsEscape, NoEscapeStarts, PiecesCut, KeptPieces, Concat;
    if s == [] {
      pieces, kept := [], [];
      NothingCut();
    } else {
      var n := EscapeLength(s);
      EscapeLengthMeans(s);
      UnescapedStep(s);
      var k := if n > 0 then n else 1;
      var more, marks := UnescapedMeans(s[k..]);
      assert s == s[..k] + s[k..];
      CutMore(s[..k], n == 0, more, marks);
      pieces, kept := [s[..k]] + more, [n == 0] + marks;
    }
  }

  lemma NothingCut()
    ensures PiecesCut([], []) && Concat<CodeUnit>([]) == [] && Unescaped([]) == [] && KeptPieces([], []) == []
  {}

  /** A pattern for which the other case would matter. */
  predicate MindsCase(p: Pattern) { !p.ignoreCase && HasLetter(Unescaped(p.source)) }

  /** Some pattern minds case, so that those that ignore it must be folded. */
  predicate Mixed(ps: seq<Pattern>) { exists k :: 0 <= k < |ps| && MindsCase(ps[k]) }

  predicate AnyIgnores(ps: seq<Pattern>) { exists k :: 0 <= k < |ps| && ps[k].ignoreCase }

  /** The pattern is case-sensitive and has an ASCII letter here, escapes left out. */
  predicate LetterAt(p: Pattern, i: nat) {
    var t := Unescaped(p.source);
    !p.ignoreCase && i < |t| && (65 <= t[i] <= 90 || 97 <= t[i] <= 122)
  }

  /** What is decided: whether some pattern has such a letter. */
  lemma MixedMeans(ps: seq<Pattern>)
    ensures Mixed(ps) <==> exists k: nat, i: nat :: k < |ps| && LetterAt(ps[k], i)
  {
    hide Unescaped;
    if Mixed(ps) {
      var k :| 0 <= k < |ps| && MindsCase(ps[k]);
      var i :| 0 <= i < |Unescaped(ps[k].source)| && IsLetter(Unescaped(ps[k].source)[i]);
      assert LetterAt(ps[k], i);
    }
    if k: nat, i: nat :| k < |ps| && LetterAt(ps[k], i) {
      assert IsLetter(Unescaped(ps[k].source)[i]);
      assert MindsCase(ps[k]);
    }
  }

  method FindLetter(t: Text) returns (found: bool)
    ensures found == HasLetter(t)
  {
    for i := 0 to |t|
      invariant forall j :: 0 <= j < i ==> !IsLetter(t[j])
    {
      if IsLetter(t[i]) { return true; }
    }
    return false;
  }

  /** The first loop: whether to fold case, and otherwise whether to ignore it. */
  method DecideCase(ps: seq<Pattern>) returns (m: bool, j: bool)
    ensures m == Mixed(ps)
    ensures j == (!Mixed(ps) && exists k :: 0 <= k < |ps| && ps[k].ignoreCase)
  {
    m, j := false, false;
    var k := 0;
    while k < |ps|
      invariant k <= |ps| && !m
      invariant forall i :: 0 <= i < k ==> !MindsCase(ps[i])
      invariant j == exists i :: 0 <= i < k && ps[i].ignoreCase
    {
      if ps[k].ignoreCase {
        j := true;
      } else {
        var letter := FindLetter(Unescaped(ps[k].source));
        if letter {
          m, j := true, false;
          assert MindsCase(ps[k]);
          break;
        }
      }
      k := k + 1;
    }
  }

  function TokenLists(ps: seq<Pattern>): (tokss: seq<seq<Text>>)
    ensures |tokss| == |ps|
    ensures forall k :: 0 <= k < |ps| ==> tokss[k] == PatternTokens(ps[k].source)
  {
    seq(|ps|, k requires 0 <= k < |ps| => PatternTokens(ps[k].source))
  }

  function FoldFlags(ps: seq<Pattern>): (folds: seq<bool>)
    ensures |folds| == |ps|
    ensures forall k :: 0 <= k < |ps| ==> folds[k] == (ps[k].ignoreCase && Mixed(ps))
  {
    seq(|ps|, k requires 0 <= k < |ps| => ps[k].ignoreCase && Mixed(ps))
  }

  lemma RewrittenNone(tokss: seq<seq<Text>>, folds: seq<bool>)
    requires |tokss| == |folds|
    ensures RewrittenSoFar(tokss, folds, [])
  {
  }

  lemma RewrittenSnoc(tokss: seq<seq<Text>>, folds: seq<bool>, outs: seq<seq<Text>>, out: seq<Text>)
    requires RewrittenSoFar(tokss, folds, outs) && |outs| < |tokss|
    requires Rewritten(tokss[|outs|], CounterBefore(tokss, |outs|), folds[|outs|]) == Ok(out)
    ensures RewrittenSoFar(tokss, folds, outs + [out])
  {
    forall j | 0 <= j <= |outs| ensures PatternRewritten(tokss, folds, outs + [out], j) {
      assert j < |outs| ==> PatternRewritten(tokss, folds, outs, j);
    }
  }

  lemma RewrittenOfSources(ps: seq<Pattern>, outs: seq<seq<Text>>)
    requires RewrittenSoFar(TokenLists(ps), FoldFlags(ps), outs) && |outs| == |ps|
    ensures AllRewritten(TokenLists(ps), FoldFlags(ps), outs)
  {
    hide Rewritten, PatternTokens, Mixed;
    var tokss := TokenLists(ps);
    forall k | 0 <= k < |ps| ensures Tokenised(tokss[k]) && |outs[k]| == |tokss[k]| {
      PatternTokensAreTokens(ps[k].source);
      assert PatternRewritten(tokss, FoldFlags(ps), outs, k);
      RewrittenLength(tokss[k], CounterBefore(tokss, k), FoldFlags(ps)[k], outs[k]);
    }
  }

  lemma RewrittenLength(toks: seq<Text>, x: nat, fold: bool, out: seq<Text>)
    requires Rewritten(toks, x, fold) == Ok(out)
    ensures |out| == |toks|
  {}

  /** Pattern `k` has a class that cannot be folded. */
  predicate FailsToFold(ps: seq<Pattern>, k: nat, error: FoldError)
    requires k < |ps|
  {
    Rewritten(TokenLists(ps)[k], CounterBefore(TokenLists(ps), k), FoldFlags(ps)[k]) == Err(error)
  }

  /** `n.join("|")`, from piece `k` on. */
  function Join(n: seq<Text>, k: nat): Text
    requires k <= |n|
    decreases |n| - k
  {
    if k == |n| then [] else (if k == 0 then [] else SEPARATOR) + n[k] + Join(n, k + 1)
  }

  lemma {:induction false} PiecesJoin(n: seq<Text>, outs: seq<seq<Text>>, k: nat)
    requires k <= |n| == |outs| && forall i :: 0 <= i < |n| ==> n[i] == Piece(outs[i])
    ensures Join(n, k) == JoinedFrom(outs, k)
    decreases |n| - k
  {
    hide Piece;
    if k < |n| { PiecesJoin(n, outs, k + 1); }
  }

  /** The tokens of each source are what the token pattern matches in it, one match
      behind the other; and where it matches everywhere, they are the source. */
  ghost predicate TokensOfSources(ps: seq<Pattern>) {
    forall k :: 0 <= k < |ps| ==> TokensOfSource(ps[k].source, TokenLists(ps)[k])
  }

  ghost predicate TokensOfSource(source: Text, toks: seq<Text>) {
    && (exists places :: |places| == |toks| && TokensStand(source, toks, places, 0) && RestUnmatched(source, toks, places, 0))
    && (NoneBroken(Scan(source, 0)) ==> Concat(toks) == source && Scan(source, 0) == MarksFrom(toks, 0, 0))
  }

  lemma SourcesAreCut(ps: seq<Pattern>)
    ensures TokensOfSources(ps)
  {
    hide Scan, PatternTokens, TokensStand, RestUnmatched, NoneBroken, MarksFrom;
    forall k | 0 <= k < |ps| ensures TokensOfSource(ps[k].source, TokenLists(ps)[k]) {
      var places := TokensAreMatches(ps[k].source);
      SourceReads(ps[k].source, 0);
    }
  }

  /** The text reads as the tokens of the sources are meant, if no token breaks it. */
  lemma CombinationReads(ps: seq<Pattern>, outs: seq<seq<Text>>)
    requires AllRewritten(TokenLists(ps), FoldFlags(ps), outs)
    ensures AllSound(TokenLists(ps)) <==> Scan(Joined(outs), 0) == WantedAll(TokenLists(ps), FoldFlags(ps), outs, 0, 0)
    ensures TokensOfSources(ps)
  {
    hide Scan, AllSound, AllRewritten, Joined, WantedAll, TokensOfSources, FoldFlags, TokenLists;
    CombiningKeepsReferences(TokenLists(ps), FoldFlags(ps), outs);
    SourcesAreCut(ps);
  }

  /** `combinePrefixPatterns`: every pattern is rewritten, the pieces are joined. */
  method CombinePatterns(ps: seq<Pattern>) returns (r: Result<Combination, CombineError>, outs: seq<seq<Text>>)
    ensures r.Ok? ==>
              && AllRewritten(TokenLists(ps), FoldFlags(ps), outs)
              && r.value.text == Joined(outs)
              && r.value.ignoreCase == (!Mixed(ps) && AnyIgnores(ps))
              && (forall k :: 0 <= k < |ps| ==> !ps[k].isGlobal && !ps[k].multiline && PatternTokens(ps[k].source) != [])
              && (AllSound(TokenLists(ps)) <==>
                    Scan(r.value.text, 0) == WantedAll(TokenLists(ps), FoldFlags(ps), outs, 0, 0))
    ensures TokensOfSources(ps)
    ensures r.Err? ==> r.error.k < |ps|
    ensures r.Err? && r.error.BadFlags? ==> ps[r.error.k].isGlobal || ps[r.error.k].multiline
    ensures r.Err? && r.error.NoMatch? ==> PatternTokens(ps[r.error.k].source) == []
    ensures r.Err? && r.error.BadClass? ==> FailsToFold(ps, r.error.k, r.error.error)
  {
    ghost var tokss, folds := TokenLists(ps), FoldFlags(ps);
    hide Rewritten, CounterAfter, RewrittenSoFar, AllRewritten, PatternTokens, PieceStart, Concat, Mixed, TokenLists, FoldFlags,
         TokensOfSources, AllSound, Scan, WantedAll;
    SourcesAreCut(ps);
    var m, j := DecideCase(ps);
    outs := [];
    var x, n := 0, [];
    RewrittenNone(tokss, folds);
    for k := 0 to |ps|
      invariant |outs| == |n| == k && x == CounterBefore(tokss, k)
      invariant forall i :: 0 <= i < k ==> !ps[i].isGlobal && !ps[i].multiline && PatternTokens(ps[i].source) != []
      invariant forall i :: 0 <= i < k ==> n[i] == Piece(outs[i])
      invariant RewrittenSoFar(tokss, folds, outs)
    {
      if ps[k].isGlobal || ps[k].multiline {
        return Err(BadFlags(k)), outs;
      }
      var toks := PatternTokens(ps[k].source);
      if toks == [] {
        return Err(NoMatch(k)), outs;
      }
      var out, x' := RewritePattern(toks, x, ps[k].ignoreCase && m);
      if out.Err? {
        return Err(BadClass(k, out.error)), outs;
      }
      RewrittenSnoc(tokss, folds, outs, out.value);
      outs, x, n := outs + [out.value], x', n + [NON_CAPTURE + Concat(out.value) + CLOSE];
    }
    RewrittenOfSources(ps, outs);
    PiecesJoin(n, outs, 0);
    CombinationReads(ps, outs);
    r := Ok(Combination(Join(n, 0), j));
  }
}
