/**
 The choice of one frame per camera from the buffered candidates.  The search anchors
 every candidate stamp in turn and keeps the best of those combinations; it does not
 look at every combination.
 */
module BatchChooser {
  import opened Options
  import opened Sorting

  /** A candidate frame: its timestamp in nanoseconds and its picture. */
  datatype Pair = Pair(stamp: int, image: int)

  /** The candidates of each camera. */
  type Candidates = seq<seq<Pair>>

  predicate AllCamerasHaveFrames(cands: Candidates) {
    |cands| > 0 && forall i :: 0 <= i < |cands| ==> |cands[i]| > 0
  }

  function Abs(x: int): nat {
    if x < 0 then -x else x
  }

  /** Key order of the per-camera choice: closest to the anchor, then newest. */
  predicate NoFarther(p: Pair, q: Pair, anchor: int) {
    || Abs(p.stamp - anchor) < Abs(q.stamp - anchor)
    || (Abs(p.stamp - anchor) == Abs(q.stamp - anchor) && p.stamp >= q.stamp)
  }

  /** The first of the frames closest to the anchor. */
  function Nearest(items: seq<Pair>, anchor: int): Pair
    requires |items| > 0
  {
    if |items| == 1 then items[0] else
      var best := Nearest(items[1..], anchor);
      if NoFarther(items[0], best, anchor) then items[0] else best
  }

  /** One frame per camera, each the closest to the anchor. */
  function Select(cands: Candidates, anchor: int): (b: seq<Pair>)
    requires AllCamerasHaveFrames(cands)
    ensures |b| == |cands|
  {
    seq(|cands|, i requires 0 <= i < |cands| => Nearest(cands[i], anchor))
  }

  function MaxStamp(b: seq<Pair>): int
    requires |b| > 0
  {
    if |b| == 1 then b[0].stamp else
      var m := MaxStamp(b[1..]);
      if b[0].stamp > m then b[0].stamp else m
  }

  function MinStamp(b: seq<Pair>): int
    requires |b| > 0
  {
    if |b| == 1 then b[0].stamp else
      var m := MinStamp(b[1..]);
      if b[0].stamp < m then b[0].stamp else m
  }

  function Span(b: seq<Pair>): int
    requires |b| > 0
  {
    MaxStamp(b) - MinStamp(b)
  }

  /** The batch key order: smaller span first, then the newer batch. */
  predicate BetterKey(b: seq<Pair>, c: seq<Pair>)
    requires |b| > 0 && |c| > 0
  {
    Span(b) < Span(c) || (Span(b) == Span(c) && MinStamp(b) > MinStamp(c))
  }

  function StampsOf(items: seq<Pair>): seq<int> {
    seq(|items|, i requires 0 <= i < |items| => items[i].stamp)
  }

  function AllStamps(cands: Candidates): seq<int> {
    if cands == [] then [] else StampsOf(cands[0]) + AllStamps(cands[1..])
  }

  predicate AtMost(x: int, y: int) { x <= y }

  function Distinct(s: seq<int>): seq<int> {
    if |s| <= 1 then s else
      if s[0] == s[1] then Distinct(s[1..]) else [s[0]] + Distinct(s[1..])
  }

  /** The distinct candidate stamps in increasing order. */
  function Anchors(cands: Candidates): seq<int> {
    Distinct(Sorted(AllStamps(cands), AtMost))
  }

  ghost predicate IsAnchor(cands: Candidates, a: int) {
    exists i, j :: 0 <= i < |cands| && 0 <= j < |cands[i]| && cands[i][j].stamp == a
  }

  /** No anchor yields a better batch than `a`, and no earlier anchor an equally good one. */
  ghost predicate Winner(cands: Candidates, a: int)
    requires AllCamerasHaveFrames(cands)
  {
    && IsAnchor(cands, a)
    && forall x {:trigger Select(cands, x)} :: IsAnchor(cands, x) ==>
         && !BetterKey(Select(cands, x), Select(cands, a))
         && (x < a ==> BetterKey(Select(cands, a), Select(cands, x)))
  }

  // ---------------------------------------------------------------- the search

  lemma {:induction false} AllStampsAreAnchors(cands: Candidates, a: int)
    ensures a in AllStamps(cands) <==> IsAnchor(cands, a)
  {
    if cands != [] {
      var rest := cands[1..];
      AllStampsAreAnchors(rest, a);
      assert a in StampsOf(cands[0]) <==> exists j :: 0 <= j < |cands[0]| && cands[0][j].stamp == a by {
        assert forall j :: 0 <= j < |cands[0]| ==> StampsOf(cands[0])[j] == cands[0][j].stamp;
      }
      if IsAnchor(cands, a) {
        var i, j :| 0 <= i < |cands| && 0 <= j < |cands[i]| && cands[i][j].stamp == a;
        if i > 0 {
          assert rest[i - 1][j].stamp == a;
        }
      }
      if IsAnchor(rest, a) {
        var i, j :| 0 <= i < |rest| && 0 <= j < |rest[i]| && rest[i][j].stamp == a;
        assert cands[i + 1][j].stamp == a;
      }
    }
  }

  lemma {:induction false} DistinctKeepsElements(s: seq<int>, a: int)
    ensures a in Distinct(s) <==> a in s
    ensures |Distinct(s)| > 0 <==> |s| > 0
    ensures |s| > 0 ==> Distinct(s)[0] == s[0]
  {
    if |s| > 1 {
      DistinctKeepsElements(s[1..], a);
    }
  }

  lemma {:induction false} DistinctIncreases(s: seq<int>)
    requires SortedBy(s, AtMost)
    ensures forall i, j :: 0 <= i < j < |Distinct(s)| ==> Distinct(s)[i] < Distinct(s)[j]
  {
    if |s| > 1 {
      var rest := s[1..];
      assert forall i, j :: 0 <= i < j < |rest| ==> AtMost(rest[i], rest[j]) by {
        assert forall i :: 0 <= i < |rest| ==> rest[i] == s[i + 1];
      }
      DistinctIncreases(rest);
      if s[0] != s[1] {
        forall j | 0 <= j < |Distinct(rest)|
          ensures s[0] < Distinct(rest)[j]
        {
          DistinctKeepsElements(rest, Distinct(rest)[0]);
          assert AtMost(s[0], s[1]);
        }
      }
    }
  }

  /** The anchor list: every candidate stamp once, in increasing order. */
  lemma AnchorList(cands: Candidates)
    ensures forall a :: a in Anchors(cands) <==> IsAnchor(cands, a)
    ensures forall i, j :: 0 <= i < j < |Anchors(cands)| ==> Anchors(cands)[i] < Anchors(cands)[j]
  {
    var all := AllStamps(cands);
    SortedSorts(all, AtMost);
    SortedKeepsElements(all, AtMost);
    DistinctIncreases(Sorted(all, AtMost));
    forall a
      ensures a in Anchors(cands) <==> IsAnchor(cands, a)
    {
      AllStampsAreAnchors(cands, a);
      DistinctKeepsElements(Sorted(all, AtMost), a);
      assert a in multiset(all) <==> a in multiset(Sorted(all, AtMost));
    }
  }

  /** The best of the first k anchors, the earliest among equals. */
  ghost predicate BestSoFar(cands: Candidates, anchors: seq<int>, k: nat, a: int)
    requires AllCamerasHaveFrames(cands) && k <= |anchors|
  {
    && a in anchors[..k]
    && forall i {:trigger anchors[i]} :: 0 <= i < k ==>
         && !BetterKey(Select(cands, anchors[i]), Select(cands, a))
         && (anchors[i] < a ==> BetterKey(Select(cands, a), Select(cands, anchors[i])))
  }

  /** The chosen batch: the winner's, unless it spans more than the limit. */
  ghost predicate Chosen(cands: Candidates, maxSpan: int, r: Option<seq<Pair>>)
    requires AllCamerasHaveFrames(cands)
  {
    exists a :: Winner(cands, a)
      && r == if Span(Select(cands, a)) > maxSpan then None else Some(Select(cands, a))
  }

  /** The best of the combinations anchored at a candidate stamp, unless it spans too much. */
  method ClosestTimestampBatch(cands: Candidates, maxSpan: int) returns (r: Option<seq<Pair>>)
    ensures !AllCamerasHaveFrames(cands) ==> r == None
    ensures AllCamerasHaveFrames(cands) ==> Chosen(cands, maxSpan, r)
  {
    if |cands| == 0 || exists i :: 0 <= i < |cands| && |cands[i]| == 0 {
      return None;
    }
    hide BetterKey, Select, Span, Anchors, Winner, BestSoFar;
    var anchors := Anchors(cands);
    AnchorList(cands);
    assert IsAnchor(cands, cands[0][0].stamp);
    var best := Select(cands, anchors[0]);
    ghost var a := anchors[0];
    FirstIsBest(cands, anchors);
    var k := 1;
    while k < |anchors|
      invariant 1 <= k <= |anchors|
      invariant best == Select(cands, a) && BestSoFar(cands, anchors, k, a)
    {
      var selected := Select(cands, anchors[k]);
      NextIsBest(cands, anchors, k, a);
      if BetterKey(selected, best) {
        best, a := selected, anchors[k];
      }
      k := k + 1;
    }
    BestIsWinner(cands, anchors, a);
    if Span(best) > maxSpan {
      return None;
    }
    return Some(best);
  }

  lemma FirstIsBest(cands: Candidates, anchors: seq<int>)
    requires AllCamerasHaveFrames(cands) && |anchors| > 0
    ensures BestSoFar(cands, anchors, 1, anchors[0])
  {
    KeyIsStrict(Select(cands, anchors[0]));
  }

  lemma KeyIsStrict(b: seq<Pair>)
    requires |b| > 0
    ensures !BetterKey(b, b)
  {
  }

  lemma KeyIsTransitive(b: seq<Pair>, c: seq<Pair>, d: seq<Pair>)
    requires |b| > 0 && |c| > 0 && |d| > 0
    requires BetterKey(b, c) && !BetterKey(d, c)
    ensures BetterKey(b, d) && !BetterKey(d, b)
  {
  }

  lemma BestIsWinner(cands: Candidates, anchors: seq<int>, a: int)
    requires AllCamerasHaveFrames(cands) && BestSoFar(cands, anchors, |anchors|, a)
    requires forall x :: x in anchors <==> IsAnchor(cands, x)
    ensures Winner(cands, a)
  {
    hide BetterKey, Select;
    forall x {:trigger Select(cands, x)} | IsAnchor(cands, x)
      ensures !BetterKey(Select(cands, x), Select(cands, a))
      ensures x < a ==> BetterKey(Select(cands, a), Select(cands, x))
    {
      var i :| 0 <= i < |anchors| && anchors[i] == x;
    }
  }

  /** The k-th anchor takes over exactly when its batch is better. */
  lemma NextIsBest(cands: Candidates, anchors: seq<int>, k: nat, a: int)
    requires AllCamerasHaveFrames(cands) && k < |anchors|
    requires forall i, j :: 0 <= i < j < |anchors| ==> anchors[i] < anchors[j]
    requires BestSoFar(cands, anchors, k, a)
    ensures BestSoFar(cands, anchors, k + 1,
                      if BetterKey(Select(cands, anchors[k]), Select(cands, a)) then anchors[k] else a)
  {
    hide BetterKey, Select;
    assert anchors[..k + 1][k] == anchors[k];
    assert a in anchors[..k + 1] by {
      assert anchors[..k + 1] == anchors[..k] + [anchors[k]];
    }
    if BetterKey(Select(cands, anchors[k]), Select(cands, a)) {
      forall i {:trigger anchors[i]} | 0 <= i < k + 1
        ensures !BetterKey(Select(cands, anchors[i]), Select(cands, anchors[k]))
        ensures anchors[i] < anchors[k] ==> BetterKey(Select(cands, anchors[k]), Select(cands, anchors[i]))
      {
        if i < k {
          KeyIsTransitive(Select(cands, anchors[k]), Select(cands, a), Select(cands, anchors[i]));
        } else {
          KeyIsStrict(Select(cands, anchors[k]));
        }
      }
    } else {
      var j :| 0 <= j < k && anchors[j] == a;
      assert anchors[j] < anchors[k];
    }
  }

  // ---------------------------------------------------------------- what the choice guarantees

  /** One candidate frame per camera. */
  ghost predicate IsBatch(cands: Candidates, b: seq<Pair>) {
    |b| == |cands| && forall i {:trigger b[i]} :: 0 <= i < |b| ==> b[i] in cands[i]
  }

  lemma {:induction false} NearestIsCandidate(items: seq<Pair>, anchor: int, p: Pair)
    requires |items| > 0
    ensures Nearest(items, anchor) in items
    ensures p in items ==> NoFarther(Nearest(items, anchor), p, anchor)
  {
    if |items| > 1 {
      NearestIsCandidate(items[1..], anchor, p);
      assert items == [items[0]] + items[1..];
    }
  }

  lemma SelectIsBatch(cands: Candidates, anchor: int)
    requires AllCamerasHaveFrames(cands)
    ensures IsBatch(cands, Select(cands, anchor))
  {
    var b := Select(cands, anchor);
    forall i {:trigger b[i]} | 0 <= i < |b|
      ensures b[i] in cands[i]
    {
      NearestIsCandidate(cands[i], anchor, cands[i][0]);
    }
  }

  /** The selected frame of a camera is no farther from the anchor than any of its frames. */
  lemma SelectedIsNear(cands: Candidates, anchor: int, b: seq<Pair>, i: nat)
    requires AllCamerasHaveFrames(cands) && IsBatch(cands, b) && i < |cands|
    ensures Abs(Select(cands, anchor)[i].stamp - anchor) <= Abs(b[i].stamp - anchor)
  {
    NearestIsCandidate(cands[i], anchor, b[i]);
  }

  lemma {:induction false} StampsWithin(b: seq<Pair>, i: nat)
    requires i < |b|
    ensures MinStamp(b) <= b[i].stamp <= MaxStamp(b)
  {
    if |b| > 1 && i > 0 {
      StampsWithin(b[1..], i - 1);
    } else if |b| > 1 {
      StampsWithin(b[1..], 0);
    }
  }

  lemma {:induction false} SpanBound(b: seq<Pair>, lo: int, hi: int)
    requires |b| > 0 && forall i :: 0 <= i < |b| ==> lo <= b[i].stamp <= hi
    ensures lo <= MinStamp(b) <= MaxStamp(b) <= hi
    ensures Span(b) <= hi - lo
  {
    if |b| > 1 {
      SpanBound(b[1..], lo, hi);
    }
  }

  lemma {:induction false} MaxIsAttained(b: seq<Pair>) returns (i: nat)
    requires |b| > 0
    ensures i < |b| && b[i].stamp == MaxStamp(b)
  {
    if |b| == 1 || b[0].stamp > MaxStamp(b[1..]) {
      i := 0;
    } else {
      i := MaxIsAttained(b[1..]);
      i := i + 1;
    }
  }

  lemma {:induction false} MinIsAttained(b: seq<Pair>) returns (i: nat)
    requires |b| > 0
    ensures i < |b| && b[i].stamp == MinStamp(b)
  {
    if |b| == 1 || b[0].stamp < MinStamp(b[1..]) {
      i := 0;
    } else {
      i := MinIsAttained(b[1..]);
      i := i + 1;
    }
  }

  lemma MemberIsAnchor(cands: Candidates, b: seq<Pair>, i: nat)
    requires IsBatch(cands, b) && i < |b|
    ensures IsAnchor(cands, b[i].stamp)
  {
    assert b[i] in cands[i];
    var j :| 0 <= j < |cands[i]| && cands[i][j] == b[i];
  }

  /** The winner's span does not exceed that of any anchored combination. */
  lemma WinnerBeats(cands: Candidates, a: int, x: int)
    requires AllCamerasHaveFrames(cands) && Winner(cands, a) && IsAnchor(cands, x)
    ensures Span(Select(cands, a)) <= Span(Select(cands, x))
  {
    hide Select, Span;
    assert !BetterKey(Select(cands, x), Select(cands, a));
  }

  /** A span is at most d exactly if no two stamps are further apart. */
  lemma SpanMeans(b: seq<Pair>, d: int)
    requires |b| > 0
    ensures Span(b) <= d <==> forall i, j :: 0 <= i < |b| && 0 <= j < |b| ==> b[i].stamp - b[j].stamp <= d
  {
    var i := MaxIsAttained(b);
    var j := MinIsAttained(b);
    if Span(b) <= d {
      forall k, m | 0 <= k < |b| && 0 <= m < |b|
        ensures b[k].stamp - b[m].stamp <= d
      {
        StampsWithin(b, k);
        StampsWithin(b, m);
      }
    } else {
      assert b[i].stamp - b[j].stamp > d;
    }
  }

  /** No frame is closer to the anchor, none as close is newer, and no earlier one has the same stamp. */
  ghost predicate IsNearestAt(items: seq<Pair>, anchor: int, i: nat)
    requires i < |items|
  {
    forall j :: 0 <= j < |items| ==>
      var mine, other := items[i].stamp, items[j].stamp;
      && (if mine <= anchor then anchor - mine else mine - anchor) <= (if other <= anchor then anchor - other else other - anchor)
      && (other - anchor == anchor - mine ==> other <= mine)
      && (other == mine ==> i <= j)
  }

  lemma {:induction false} NearestIsTheNewestClosest(items: seq<Pair>, anchor: int) returns (i: nat)
    requires |items| > 0
    ensures i < |items| && Nearest(items, anchor) == items[i] && IsNearestAt(items, anchor, i)
  {
    i := 0;
    if |items| > 1 {
      var k := NearestIsTheNewestClosest(items[1..], anchor);
      i := if NoFarther(items[0], items[1..][k], anchor) then 0 else k + 1;
      forall j | 0 <= j < |items|
        ensures var mine, other := items[i].stamp, items[j].stamp;
                && Abs(mine - anchor) <= Abs(other - anchor)
                && (other - anchor == anchor - mine ==> other <= mine) && (other == mine ==> i <= j)
      {
        assert j > 0 ==> items[j] == items[1..][j - 1];
      }
    }
  }

  /**
   A winner's batch is the newest one of smallest span: no anchor yields a smaller span,
   none of equal span a later oldest stamp, and no earlier anchor the same in both.
   */
  lemma WinnerIsTheNewestClosest(cands: Candidates, a: int)
    requires AllCamerasHaveFrames(cands)
    ensures Winner(cands, a) <==>
              && IsAnchor(cands, a)
              && forall x {:trigger Select(cands, x)} :: IsAnchor(cands, x) ==>
                   && Span(Select(cands, a)) <= Span(Select(cands, x))
                   && (Span(Select(cands, x)) == Span(Select(cands, a)) ==>
                         && MinStamp(Select(cands, x)) <= MinStamp(Select(cands, a))
                         && (MinStamp(Select(cands, x)) == MinStamp(Select(cands, a)) ==> a <= x))
  {
    hide Select, Span, MinStamp;
  }

  /** So no anchor yields a batch of the returned span that is newer. */
  lemma ReturnedBatchIsNewest(cands: Candidates, maxSpan: int, r: Option<seq<Pair>>, x: int)
    requires AllCamerasHaveFrames(cands) && Chosen(cands, maxSpan, r) && r.Some? && IsAnchor(cands, x)
    ensures |r.value| > 0 && Span(r.value) <= Span(Select(cands, x))
    ensures Span(r.value) == Span(Select(cands, x)) ==> MinStamp(Select(cands, x)) <= MinStamp(r.value)
  {
    hide Winner, Select, Span, MinStamp;
    var a :| Winner(cands, a)
          && r == if Span(Select(cands, a)) > maxSpan then None else Some(Select(cands, a));
    WinnerIsTheNewestClosest(cands, a);
  }

  /** The chosen span is at most twice the span of any combination. */
  lemma WithinTwiceTheMinimum(cands: Candidates, a: int, b: seq<Pair>)
    requires AllCamerasHaveFrames(cands) && Winner(cands, a) && IsBatch(cands, b)
    ensures Span(Select(cands, a)) <= 2 * Span(b)
  {
    hide Winner;
    var k := MinIsAttained(b);
    var x := b[k].stamp;
    MemberIsAnchor(cands, b, k);
    WinnerBeats(cands, a, x);
    var near := Select(cands, x);
    forall i | 0 <= i < |near|
      ensures x - Span(b) <= near[i].stamp <= x + Span(b)
    {
      SelectedIsNear(cands, x, b, i);
      StampsWithin(b, i);
    }
    SpanBound(near, x - Span(b), x + Span(b));
  }

  /** So a batch is never rejected while some combination spans at most half the limit. */
  lemma HalfTheLimitIsAccepted(cands: Candidates, maxSpan: int, r: Option<seq<Pair>>, b: seq<Pair>)
    requires AllCamerasHaveFrames(cands) && Chosen(cands, maxSpan, r)
    requires IsBatch(cands, b) && 2 * Span(b) <= maxSpan
    ensures r.Some?
  {
    var a :| Winner(cands, a)
          && r == if Span(Select(cands, a)) > maxSpan then None else Some(Select(cands, a));
    WithinTwiceTheMinimum(cands, a, b);
  }

  /** A returned batch takes one candidate per camera and spans at most the limit. */
  lemma ReturnedBatchFits(cands: Candidates, maxSpan: int, r: Option<seq<Pair>>)
    requires AllCamerasHaveFrames(cands) && Chosen(cands, maxSpan, r) && r.Some?
    ensures IsBatch(cands, r.value) && |r.value| > 0 && Span(r.value) <= maxSpan
  {
    var a :| Winner(cands, a)
          && r == if Span(Select(cands, a)) > maxSpan then None else Some(Select(cands, a));
    SelectIsBatch(cands, a);
  }

  // ---------------------------------------------------------------- when the choice is exact

  /** Different stamps of one camera are at least `sep` apart. */
  ghost predicate Apart(cands: Candidates, sep: int) {
    forall i, p, q :: 0 <= i < |cands| && p in cands[i] && q in cands[i] && p.stamp != q.stamp ==>
      Abs(p.stamp - q.stamp) >= sep
  }

  /** A frame as far from the anchor on the other side is the older one, so it loses the tie. */
  lemma NearestInWindow(items: seq<Pair>, x: int, p: Pair, limit: int)
    requires p in items && x <= p.stamp <= x + limit
    requires forall q :: q in items && q.stamp != p.stamp ==> Abs(q.stamp - p.stamp) >= 2 * limit
    ensures Nearest(items, x).stamp == p.stamp
  {
    NearestIsCandidate(items, x, p);
    hide Nearest;
  }

  /** With frames twice the limit apart, anchoring at the oldest stamp of a batch within the limit finds its stamps. */
  lemma SeparatedAnchorFinds(cands: Candidates, limit: int, b: seq<Pair>, k: nat)
    requires AllCamerasHaveFrames(cands) && Apart(cands, 2 * limit)
    requires IsBatch(cands, b) && Span(b) <= limit
    requires k < |b| && b[k].stamp == MinStamp(b)
    ensures forall i :: 0 <= i < |b| ==> Select(cands, b[k].stamp)[i].stamp == b[i].stamp
  {
    hide Nearest;
    var x := b[k].stamp;
    forall i | 0 <= i < |b|
      ensures Select(cands, x)[i].stamp == b[i].stamp
    {
      StampsWithin(b, i);
      assert b[i] in cands[i];
      hide MinStamp, MaxStamp, Abs;
      NearestInWindow(cands[i], x, b[i], limit);
    }
  }

  lemma {:induction false} SameStampsSameKey(b: seq<Pair>, c: seq<Pair>)
    requires |b| == |c| > 0 && forall i :: 0 <= i < |b| ==> b[i].stamp == c[i].stamp
    ensures MinStamp(b) == MinStamp(c) && MaxStamp(b) == MaxStamp(c)
  {
    if |b| > 1 {
      SameStampsSameKey(b[1..], c[1..]);
    }
  }

  /** With frames twice the limit apart no batch within the limit beats the choice, not even by being newer. */
  lemma SeparatedFramesAreExact(cands: Candidates, limit: int, a: int, b: seq<Pair>)
    requires AllCamerasHaveFrames(cands) && Apart(cands, 2 * limit) && Winner(cands, a)
    requires IsBatch(cands, b) && Span(b) <= limit
    ensures Span(Select(cands, a)) <= Span(b)
    ensures Span(b) == Span(Select(cands, a)) ==> MinStamp(b) <= MinStamp(Select(cands, a))
  {
    hide Apart;
    WinnerIsTheNewestClosest(cands, a);
    var k := MinIsAttained(b);
    MemberIsAnchor(cands, b, k);
    SeparatedAnchorFinds(cands, limit, b, k);
    SameStampsSameKey(Select(cands, b[k].stamp), b);
    hide Select;
    assert Span(Select(cands, a)) <= Span(Select(cands, b[k].stamp));
  }

  /** A batch within one nanosecond is matched or beaten whatever the spacing. */
  lemma OneNanosecondIsExact(cands: Candidates, a: int, b: seq<Pair>)
    requires AllCamerasHaveFrames(cands) && Winner(cands, a) && IsBatch(cands, b) && Span(b) <= 1
    ensures Span(Select(cands, a)) <= Span(b)
  {
    hide Winner;
    var k := MinIsAttained(b);
    var x := b[k].stamp;
    MemberIsAnchor(cands, b, k);
    WinnerBeats(cands, a, x);
    var near := Select(cands, x);
    forall i | 0 <= i < |near|
      ensures x <= near[i].stamp <= x + Span(b)
    {
      NearestIsCandidate(cands[i], x, b[i]);
      StampsWithin(b, i);
      assert b[i] in cands[i];
    }
    SpanBound(near, x, x + Span(b));
  }

  /** With one or two cameras, anchoring at the first camera's frame keeps the span. */
  lemma FirstAnchorKeepsSpan(cands: Candidates, b: seq<Pair>)
    requires AllCamerasHaveFrames(cands) && IsBatch(cands, b) && |b| <= 2
    ensures Span(Select(cands, b[0].stamp)) <= Span(b)
  {
    var x := b[0].stamp;
    var near := Select(cands, x);
    SelectedIsNear(cands, x, b, 0);
    StampsWithin(b, 0);
    if |b| == 1 {
      SpanBound(near, x, x);
    } else {
      SelectedIsNear(cands, x, b, 1);
      StampsWithin(b, 1);
      var y := near[1].stamp;
      SpanBound(near, if x < y then x else y, if x < y then y else x);
    }
  }

  /** With three cameras, anchoring at the middle one of the three stamps keeps the span. */
  lemma MiddleAnchorKeepsSpan(cands: Candidates, b: seq<Pair>, i: nat, k: nat, j: nat)
    requires AllCamerasHaveFrames(cands) && IsBatch(cands, b) && |b| == 3
    requires i < 3 && j < 3 && k < 3 && i != j && j != k && i != k
    requires b[i].stamp <= b[k].stamp <= b[j].stamp
    ensures Span(Select(cands, b[k].stamp)) <= Span(b)
  {
    hide Select, IsBatch;
    BatchLength(cands, b);
    var x := b[k].stamp;
    SelectedIsNear(cands, x, b, i);
    SelectedIsNear(cands, x, b, j);
    SelectedIsNear(cands, x, b, k);
    StampsWithin(b, i);
    StampsWithin(b, j);
    ThreeStamps(Select(cands, x), i, k, j, x, x - b[i].stamp, b[j].stamp - x);
  }

  lemma ThreeStamps(near: seq<Pair>, i: nat, k: nat, j: nat, x: int, d: nat, e: nat)
    requires |near| == 3 && i < 3 && j < 3 && k < 3 && i != j && j != k && i != k
    requires near[k].stamp == x && Abs(near[i].stamp - x) <= d && Abs(near[j].stamp - x) <= e
    ensures Span(near) <= d + e
  {
    var y, z := near[i].stamp, near[j].stamp;
    var lo := if x <= y && x <= z then x else if y <= z then y else z;
    var hi := if x >= y && x >= z then x else if y >= z then y else z;
    SpanBound(near, lo, hi);
  }

  /** Up to three cameras the search is exact on every input. */
  lemma ThreeCamerasAreExact(cands: Candidates, a: int, b: seq<Pair>)
    requires AllCamerasHaveFrames(cands) && |cands| <= 3 && Winner(cands, a) && IsBatch(cands, b)
    ensures |b| > 0 && Span(Select(cands, a)) <= Span(b)
  {
    hide Winner, Span, Select, IsBatch;
    BatchLength(cands, b);
    var k := 0;
    if |b| <= 2 {
      FirstAnchorKeepsSpan(cands, b);
    } else {
      var s, t, u := b[0].stamp, b[1].stamp, b[2].stamp;
      var i, j := 1, 2;
      if s <= t <= u || u <= t <= s {
        i, k, j := if s <= u then 0 else 2, 1, if s <= u then 2 else 0;
      } else if t <= s <= u || u <= s <= t {
        i, k, j := if t <= u then 1 else 2, 0, if t <= u then 2 else 1;
      } else {
        i, k, j := if s <= t then 0 else 1, 2, if s <= t then 1 else 0;
      }
      MiddleAnchorKeepsSpan(cands, b, i, k, j);
    }
    MemberIsAnchor(cands, b, k);
    WinnerBeats(cands, a, b[k].stamp);
  }

  lemma BatchLength(cands: Candidates, b: seq<Pair>)
    requires AllCamerasHaveFrames(cands) && IsBatch(cands, b)
    ensures |b| == |cands| > 0
  {
  }

  /** The search returns a minimum-span batch for every input of n cameras. */
  ghost predicate ExactFor(n: nat) {
    forall cands: Candidates, a: int, b: seq<Pair> ::
      |cands| == n && AllCamerasHaveFrames(cands) && Winner(cands, a) && IsBatch(cands, b) ==>
        |b| > 0 && Span(Select(cands, a)) <= Span(b)
  }

  /** The claim to choose the closest combination holds exactly up to three cameras. */
  lemma ExactExactlyUpToThreeCameras(n: nat)
    ensures ExactFor(n) <==> n <= 3
  {
    hide Span, Select, Winner, IsBatch;
    if n <= 3 {
      forall cands: Candidates, a: int, b: seq<Pair>
        | |cands| == n && AllCamerasHaveFrames(cands) && Winner(cands, a) && IsBatch(cands, b)
        ensures |b| > 0 && Span(Select(cands, a)) <= Span(b)
      {
        ThreeCamerasAreExact(cands, a, b);
      }
    } else {
      var cands: seq<seq<Pair>>, best := FourCamerasCanMissTheMinimum(n, 2, 0, 0);
      var a := SomeWinner(cands);
    }
  }

  /** Every input with frames has a winner: the scan itself finds one. */
  lemma SomeWinner(cands: Candidates) returns (a: int)
    requires AllCamerasHaveFrames(cands)
    ensures Winner(cands, a)
  {
    hide BetterKey, Select, Anchors, Winner, BestSoFar;
    var anchors := Anchors(cands);
    AnchorList(cands);
    assert IsAnchor(cands, cands[0][0].stamp);
    a := anchors[0];
    FirstIsBest(cands, anchors);
    var k := 1;
    while k < |anchors|
      invariant 1 <= k <= |anchors| && BestSoFar(cands, anchors, k, a)
    {
      NextIsBest(cands, anchors, k, a);
      a := if BetterKey(Select(cands, anchors[k]), Select(cands, a)) then anchors[k] else a;
      k := k + 1;
    }
    BestIsWinner(cands, anchors, a);
  }

  // ---------------------------------------------------------------- limit and spacing

  /** Whenever a batch within the limit exists, one of minimum span is returned. */
  ghost predicate Finds(cands: Candidates, limit: int, r: Option<seq<Pair>>) {
    forall b: seq<Pair> :: |b| > 0 && IsBatch(cands, b) && Span(b) <= limit ==>
      r.Some? && |r.value| > 0 && Span(r.value) <= Span(b)
  }

  /** So it is for every input of n cameras whose frames are at least `sep` apart. */
  ghost predicate ExactWithin(n: nat, limit: int, sep: int) {
    forall cands: Candidates, r: Option<seq<Pair>> ::
      |cands| == n && AllCamerasHaveFrames(cands) && Apart(cands, sep) && Chosen(cands, limit, r) ==>
        Finds(cands, limit, r)
  }

  /** The best batch is found by the right spacing, by few cameras or under a trivial limit. */
  lemma FoundWhenSpaced(cands: Candidates, limit: int, sep: int, r: Option<seq<Pair>>)
    requires AllCamerasHaveFrames(cands) && Apart(cands, sep) && Chosen(cands, limit, r)
    requires |cands| <= 3 || limit <= 1 || sep >= 2 * limit
    ensures Finds(cands, limit, r)
  {
    hide Winner, Select, Span, MinStamp;
    var a :| Winner(cands, a)
          && r == if Span(Select(cands, a)) > limit then None else Some(Select(cands, a));
    SelectIsBatch(cands, a);
    forall b: seq<Pair> | |b| > 0 && IsBatch(cands, b) && Span(b) <= limit
      ensures Span(Select(cands, a)) <= Span(b)
    {
      if |cands| <= 3 {
        ThreeCamerasAreExact(cands, a, b);
      } else if limit <= 1 {
        OneNanosecondIsExact(cands, a, b);
      } else {
        SeparatedFramesAreExact(cands, limit, a, b);
      }
    }
  }

  /**
   For every number of cameras, limit and spacing: the best batch within the limit is
   always found exactly if there are at most three cameras, the limit is at most one
   nanosecond, or the frames of each camera are at least twice the limit apart.
   */
  lemma ExactExactlyAtTwiceTheLimit(n: nat, limit: int, sep: int)
    ensures ExactWithin(n, limit, sep) <==> n <= 3 || limit <= 1 || sep >= 2 * limit
  {
    hide Finds, Winner, Select, Span, Apart, Spoiler, IsBatch;
    if n <= 3 || limit <= 1 || sep >= 2 * limit {
      forall cands: Candidates, r: Option<seq<Pair>>
        | |cands| == n && AllCamerasHaveFrames(cands) && Apart(cands, sep) && Chosen(cands, limit, r)
        ensures Finds(cands, limit, r)
      {
        FoundWhenSpaced(cands, limit, sep, r);
      }
    } else {
      SpoilerHasFrames(n, limit, 0, 0);
      SpoilerIsApart(n, limit, 0, 0, sep);
      SpoilerIsRejected(n, limit, 0, 0);
    }
  }

  /** What a node can hand over: per camera enough frames, in the order of their stamps, all from after the barrier. */
  ghost predicate CanBeHandedOver(cands: Candidates, barrier: int, minNew: nat) {
    forall c :: 0 <= c < |cands| ==> Fresh(cands[c], barrier, minNew)
  }

  ghost predicate Fresh(items: seq<Pair>, barrier: int, minNew: nat) {
    && |items| >= minNew
    && (forall i :: 0 <= i < |items| ==> items[i].stamp > barrier)
    && (forall i, j :: 0 <= i < j < |items| ==> items[i].stamp < items[j].stamp)
  }

  ghost predicate ExactOnFrames(n: nat, limit: int, sep: int, barrier: int, minNew: nat) {
    forall cands: Candidates, r: Option<seq<Pair>> ::
      |cands| == n && AllCamerasHaveFrames(cands) && CanBeHandedOver(cands, barrier, minNew) && Apart(cands, sep) && Chosen(cands, limit, r) ==>
        Finds(cands, limit, r)
  }

  /** The same condition decides on the inputs a node can hand over, whatever its barrier and number of new frames. */
  lemma ExactOnFramesAtTwiceTheLimit(n: nat, limit: int, sep: int, barrier: nat, minNew: nat)
    ensures ExactOnFrames(n, limit, sep, barrier, minNew) <==> n <= 3 || limit <= 1 || sep >= 2 * limit
  {
    hide Finds, Winner, Select, Span, Apart, Spoiler, IsBatch, CanBeHandedOver;
    if n <= 3 || limit <= 1 || sep >= 2 * limit {
      forall cands: Candidates, r: Option<seq<Pair>>
        | |cands| == n && AllCamerasHaveFrames(cands) && CanBeHandedOver(cands, barrier, minNew) && Apart(cands, sep) && Chosen(cands, limit, r)
        ensures Finds(cands, limit, r)
      {
        FoundWhenSpaced(cands, limit, sep, r);
      }
    } else {
      SpoilerHasFrames(n, limit, barrier, minNew);
      SpoilerIsApart(n, limit, barrier, minNew, sep);
      SpoilerIsRejected(n, limit, barrier, minNew);
    }
  }

  // ---------------------------------------------------------------- frames that defeat the search

  /** The stamps that matter of camera c, counted from an origin. */
  function Core(limit: int, c: nat): seq<int> {
    if c == 1 then [limit] else if c == 2 then [1 - limit, limit] else if c == 3 then [0, 2 * limit - 1] else [0]
  }

  function Origin(limit: int, barrier: nat): int { barrier + limit }

  /** A late stamp that only one camera has, far from all others. */
  function Pad(limit: int, barrier: nat, index: nat): int {
    Origin(limit, barrier) + 4 * limit * (index + 1)
  }

  /** The frames of camera c: those that matter and `pads` late ones. */
  function SpoilerFrames(limit: int, barrier: nat, pads: nat, c: nat): (items: seq<Pair>)
    ensures |items| == |Core(limit, c)| + pads
  {
    var core := Core(limit, c);
    seq(|core| + pads, i requires 0 <= i < |core| + pads =>
      if i < |core| then Pair(Origin(limit, barrier) + core[i], 0) else Pair(Pad(limit, barrier, c * pads + i - |core|), 0))
  }

  /** Frames 2 * limit - 1 apart whose best batch, spanning the limit, no anchor finds. */
  function Spoiler(n: nat, limit: int, barrier: nat, pads: nat): Candidates {
    seq(n, c requires 0 <= c < n => SpoilerFrames(limit, barrier, pads, c))
  }

  /** The batch that is missed. */
  function SpoilerBest(n: nat, limit: int, barrier: nat): seq<Pair> {
    seq(n, c requires 0 <= c < n => Pair(Origin(limit, barrier) + if c == 1 || c == 2 then limit else 0, 0))
  }

  lemma PadsAreFar(limit: int, barrier: nat, i: nat, j: nat)
    requires limit >= 2 && i < j
    ensures Pad(limit, barrier, j) - Pad(limit, barrier, i) >= 4 * limit
    ensures Pad(limit, barrier, i) - Origin(limit, barrier) >= 4 * limit
  {
    FactorAtLeastOne(4 * limit, j - i);
    FactorAtLeastOne(4 * limit, i + 1);
    assert 4 * limit * (j + 1) - 4 * limit * (i + 1) == 4 * limit * (j - i);
  }

  lemma FactorAtLeastOne(a: int, k: int)
    requires a >= 0 && k >= 1
    ensures a * k >= a
  {
  }

  /** Different cameras have different late stamps. */
  lemma PadIndices(pads: nat, c: nat, i: nat, d: nat, j: nat)
    requires i < pads && j < pads && c < d
    ensures c * pads + i < d * pads + j
  {
    FactorAtLeastOne(pads, d - c);
    assert d * pads - c * pads == (d - c) * pads;
  }

  /** A frame of camera c is one that matters or a late one. */
  lemma SpoilerMembers(limit: int, barrier: nat, pads: nat, c: nat, p: Pair) returns (late: bool, k: nat)
    requires p in SpoilerFrames(limit, barrier, pads, c)
    ensures late ==> k < pads && p.stamp == Pad(limit, barrier, c * pads + k)
    ensures !late ==> p.stamp - Origin(limit, barrier) in Core(limit, c)
  {
    hide Pad, Core;
    var items, core := SpoilerFrames(limit, barrier, pads, c), Core(limit, c);
    var i: nat :| i < |items| && items[i] == p;
    late := i >= |core|;
    k := if late then i - |core| else 0;
    if !late {
      assert p.stamp - Origin(limit, barrier) == core[i];
    }
  }

  lemma CoreBounds(limit: int, c: nat, x: int)
    requires limit >= 2 && x in Core(limit, c)
    ensures 1 - limit <= x <= 2 * limit - 1
  {
  }

  /** Where the i-th frame of a camera stands. */
  lemma SpoilerFrameAt(limit: int, barrier: nat, pads: nat, c: nat, i: nat)
    requires limit >= 2 && i < |Core(limit, c)| + pads
    ensures var stamp, n := SpoilerFrames(limit, barrier, pads, c)[i].stamp, |Core(limit, c)|;
            if i < n then stamp == Origin(limit, barrier) + Core(limit, c)[i] && barrier < stamp < Origin(limit, barrier) + 2 * limit
            else stamp == Pad(limit, barrier, c * pads + i - n) && stamp >= Origin(limit, barrier) + 4 * limit
  {
    hide Pad;
    var core := Core(limit, c);
    if i < |core| {
      CoreBounds(limit, c, core[i]);
    } else {
      PadsAreFar(limit, barrier, c * pads + i - |core|, c * pads + i - |core| + 1);
    }
  }

  lemma SpoilerFramesAreFresh(limit: int, barrier: nat, pads: nat, c: nat)
    requires limit >= 2
    ensures Fresh(SpoilerFrames(limit, barrier, pads, c), barrier, pads) && |SpoilerFrames(limit, barrier, pads, c)| > 0
  {
    var items, core := SpoilerFrames(limit, barrier, pads, c), Core(limit, c);
    hide Pad, SpoilerFrames;
    forall i: nat | i < |items|
      ensures items[i].stamp > barrier
    {
      SpoilerFrameAt(limit, barrier, pads, c, i);
    }
    forall i: nat, j: nat | i < j < |items|
      ensures items[i].stamp < items[j].stamp
    {
      SpoilerFrameAt(limit, barrier, pads, c, i);
      SpoilerFrameAt(limit, barrier, pads, c, j);
      if i >= |core| {
        PadsAreFar(limit, barrier, c * pads + i - |core|, c * pads + j - |core|);
      }
    }
  }

  lemma SpoilerHasFrames(n: nat, limit: int, barrier: nat, pads: nat)
    requires n >= 4 && limit >= 2
    ensures |Spoiler(n, limit, barrier, pads)| == n && AllCamerasHaveFrames(Spoiler(n, limit, barrier, pads))
    ensures CanBeHandedOver(Spoiler(n, limit, barrier, pads), barrier, pads)
  {
    hide SpoilerFrames, Fresh;
    forall c: nat | c < n
      ensures Fresh(SpoilerFrames(limit, barrier, pads, c), barrier, pads) && |SpoilerFrames(limit, barrier, pads, c)| > 0
    {
      SpoilerFramesAreFresh(limit, barrier, pads, c);
    }
  }

  lemma FramesAreApart(limit: int, barrier: nat, pads: nat, c: nat, p: Pair, q: Pair)
    requires limit >= 2 && p in SpoilerFrames(limit, barrier, pads, c) && q in SpoilerFrames(limit, barrier, pads, c)
    requires p.stamp < q.stamp
    ensures q.stamp - p.stamp >= 2 * limit - 1
  {
    hide SpoilerFrames, Pad;
    var late, k := SpoilerMembers(limit, barrier, pads, c, p);
    var later, m := SpoilerMembers(limit, barrier, pads, c, q);
    if later {
      PadsAreFar(limit, barrier, c * pads + m, c * pads + m + 1);
      if late {
        if k < m {
          PadsAreFar(limit, barrier, c * pads + k, c * pads + m);
        } else if m < k {
          PadsAreFar(limit, barrier, c * pads + m, c * pads + k);
        }
      } else {
        CoreBounds(limit, c, p.stamp - Origin(limit, barrier));
      }
    } else if late {
      PadsAreFar(limit, barrier, c * pads + k, c * pads + k + 1);
      CoreBounds(limit, c, q.stamp - Origin(limit, barrier));
    }
  }

  lemma SpoilerIsApart(n: nat, limit: int, barrier: nat, pads: nat, sep: int)
    requires limit >= 2 && sep < 2 * limit
    ensures Apart(Spoiler(n, limit, barrier, pads), sep)
  {
    hide SpoilerFrames;
    var cands: seq<seq<Pair>> := Spoiler(n, limit, barrier, pads);
    forall c, p: Pair, q: Pair | 0 <= c < |cands| && p in cands[c] && q in cands[c] && p.stamp != q.stamp
      ensures Abs(p.stamp - q.stamp) >= sep
    {
      if p.stamp < q.stamp {
        FramesAreApart(limit, barrier, pads, c, p, q);
      } else {
        FramesAreApart(limit, barrier, pads, c, q, p);
      }
    }
  }

  lemma CoreIsThere(limit: int, barrier: nat, pads: nat, c: nat, z: int)
    requires z in Core(limit, c)
    ensures Pair(Origin(limit, barrier) + z, 0) in SpoilerFrames(limit, barrier, pads, c)
  {
    hide Pad, Core;
    var items, core := SpoilerFrames(limit, barrier, pads, c), Core(limit, c);
    var i: nat :| i < |core| && core[i] == z;
    assert items[i] == Pair(Origin(limit, barrier) + z, 0);
  }

  /** At an anchor that matters, no late frame is nearest. */
  lemma AnswerIsCore(limit: int, barrier: nat, pads: nat, c: nat, x: int, best: Pair, z: int)
    requires limit >= 2 && 1 - limit <= x <= 2 * limit - 1 && Abs(z - x) <= 2 * limit - 1
    requires best in SpoilerFrames(limit, barrier, pads, c)
    requires NoFarther(best, Pair(Origin(limit, barrier) + z, 0), Origin(limit, barrier) + x)
    ensures best.stamp - Origin(limit, barrier) in Core(limit, c)
  {
    hide SpoilerFrames, Pad, Core;
    var late, k := SpoilerMembers(limit, barrier, pads, c, best);
    if late {
      PadsAreFar(limit, barrier, c * pads + k, c * pads + k + 1);
    }
  }

  /** At an anchor that matters, every camera answers with the best of its frames that matter. */
  lemma CoreAnswer(limit: int, barrier: nat, pads: nat, c: nat, x: int) returns (y: int)
    requires limit >= 2 && 1 - limit <= x <= 2 * limit - 1
    ensures |SpoilerFrames(limit, barrier, pads, c)| > 0
    ensures Nearest(SpoilerFrames(limit, barrier, pads, c), Origin(limit, barrier) + x).stamp == Origin(limit, barrier) + y
    ensures y in Core(limit, c)
    ensures forall z :: z in Core(limit, c) ==> Abs(y - x) < Abs(z - x) || (Abs(y - x) == Abs(z - x) && y >= z)
  {
    hide SpoilerFrames, Nearest, Pad, Core;
    var items, o := SpoilerFrames(limit, barrier, pads, c), Origin(limit, barrier);
    SpoilerFramesAreFresh(limit, barrier, pads, c);
    var best := Nearest(items, o + x);
    y := best.stamp - o;
    forall z | z in Core(limit, c)
      ensures best in items && NoFarther(best, Pair(o + z, 0), o + x)
    {
      CoreIsThere(limit, barrier, pads, c, z);
      NearestIsCandidate(items, o + x, Pair(o + z, 0));
    }
    var z := NearCore(limit, c, x);
    AnswerIsCore(limit, barrier, pads, c, x, best, z);
  }

  lemma NearCore(limit: int, c: nat, x: int) returns (z: int)
    requires limit >= 2 && 1 - limit <= x <= 2 * limit - 1
    ensures z in Core(limit, c) && Abs(z - x) <= 2 * limit - 1
  {
    var core := Core(limit, c);
    z := if c == 2 then core[1] else core[0];
  }

  /** At a late anchor its own camera is far from every other. */
  lemma LateAnswer(n: nat, limit: int, barrier: nat, pads: nat, c: nat, k: nat, x: int)
    requires n >= 4 && limit >= 2 && c < n && AllCamerasHaveFrames(Spoiler(n, limit, barrier, pads))
    requires k < pads && x == Pad(limit, barrier, c * pads + k)
    requires exists p :: p in SpoilerFrames(limit, barrier, pads, c) && p.stamp == x
    ensures Span(Select(Spoiler(n, limit, barrier, pads), x)) >= 2 * limit - 1
  {
    hide SpoilerFrames, Pad, Nearest, Span;
    var p :| p in SpoilerFrames(limit, barrier, pads, c) && p.stamp == x;
    var cands: seq<seq<Pair>> := Spoiler(n, limit, barrier, pads);
    var d := if c == 0 then 1 else 0;
    var b := Select(cands, x);
    NearestIsCandidate(cands[c], x, p);
    NearestIsCandidate(cands[d], x, cands[d][0]);
    assert b[c].stamp == x;
    OtherCameraIsFar(limit, barrier, pads, c, k, d, b[d]);
    StampsWithin(b, c);
    StampsWithin(b, d);
    SpanCovers(b, c, d);
  }

  lemma SpanCovers(b: seq<Pair>, i: nat, j: nat)
    requires i < |b| && j < |b|
    ensures Span(b) >= b[i].stamp - b[j].stamp && Span(b) >= b[j].stamp - b[i].stamp
  {
    StampsWithin(b, i);
    StampsWithin(b, j);
  }

  lemma OtherCameraIsFar(limit: int, barrier: nat, pads: nat, c: nat, k: nat, d: nat, p: Pair)
    requires limit >= 2 && c != d && k < pads && p in SpoilerFrames(limit, barrier, pads, d)
    ensures Abs(p.stamp - Pad(limit, barrier, c * pads + k)) >= 2 * limit - 1
  {
    hide SpoilerFrames, Pad;
    var late, m := SpoilerMembers(limit, barrier, pads, d, p);
    PadsAreFar(limit, barrier, c * pads + k, c * pads + k + 1);
    if late {
      if c < d {
        PadIndices(pads, c, k, d, m);
        PadsAreFar(limit, barrier, c * pads + k, d * pads + m);
      } else {
        PadIndices(pads, d, m, c, k);
        PadsAreFar(limit, barrier, d * pads + m, c * pads + k);
      }
    } else {
      CoreBounds(limit, d, p.stamp - Origin(limit, barrier));
    }
  }

  /** Every anchor selects a combination spanning at least 2 * limit - 1. */
  lemma SpoilerIsMissed(n: nat, limit: int, barrier: nat, pads: nat, x: int)
    requires n >= 4 && limit >= 2 && AllCamerasHaveFrames(Spoiler(n, limit, barrier, pads))
    requires IsAnchor(Spoiler(n, limit, barrier, pads), x)
    ensures Span(Select(Spoiler(n, limit, barrier, pads), x)) >= 2 * limit - 1
  {
    hide SpoilerFrames, Pad, Nearest, Span, Core;
    var cands: seq<seq<Pair>>, o := Spoiler(n, limit, barrier, pads), Origin(limit, barrier);
    var c: nat, j: nat :| c < |cands| && j < |cands[c]| && cands[c][j].stamp == x;
    assert cands[c][j] in SpoilerFrames(limit, barrier, pads, c);
    var late, k := SpoilerMembers(limit, barrier, pads, c, cands[c][j]);
    if late {
      LateAnswer(n, limit, barrier, pads, c, k, x);
    } else {
      CoreBounds(limit, c, x - o);
      var b := Select(cands, x);
      var y0 := CoreAnswer(limit, barrier, pads, 0, x - o);
      var y1 := CoreAnswer(limit, barrier, pads, 1, x - o);
      var y2 := CoreAnswer(limit, barrier, pads, 2, x - o);
      var y3 := CoreAnswer(limit, barrier, pads, 3, x - o);
      assert b[0].stamp == o + y0 && b[1].stamp == o + y1 && b[2].stamp == o + y2 && b[3].stamp == o + y3;
      CoreAnswersSpread(limit, c, x - o, y0, y1, y2, y3);
      SpanCovers(b, 1, 2);
      SpanCovers(b, 0, 3);
    }
  }

  lemma CoreAnswersSpread(limit: int, c: nat, x: int, y0: int, y1: int, y2: int, y3: int)
    requires limit >= 2 && x in Core(limit, c)
    requires y0 in Core(limit, 0) && y1 in Core(limit, 1) && y2 in Core(limit, 2) && y3 in Core(limit, 3)
    requires forall z :: z in Core(limit, 2) ==> Abs(y2 - x) < Abs(z - x) || (Abs(y2 - x) == Abs(z - x) && y2 >= z)
    requires forall z :: z in Core(limit, 3) ==> Abs(y3 - x) < Abs(z - x) || (Abs(y3 - x) == Abs(z - x) && y3 >= z)
    ensures y1 - y2 >= 2 * limit - 1 || y3 - y0 >= 2 * limit - 1
  {
    assert Core(limit, 2)[0] in Core(limit, 2) && Core(limit, 2)[1] in Core(limit, 2);
    assert Core(limit, 3)[0] in Core(limit, 3) && Core(limit, 3)[1] in Core(limit, 3);
  }

  /** The batch that is missed spans no more than the limit. */
  lemma SpoilerBestFits(n: nat, limit: int, barrier: nat, pads: nat)
    requires n >= 4 && limit >= 2
    ensures |SpoilerBest(n, limit, barrier)| == n && IsBatch(Spoiler(n, limit, barrier, pads), SpoilerBest(n, limit, barrier))
    ensures Span(SpoilerBest(n, limit, barrier)) <= limit
  {
    hide Span;
    var best, o := SpoilerBest(n, limit, barrier), Origin(limit, barrier);
    forall c: nat {:trigger best[c]} | c < n
      ensures best[c] in Spoiler(n, limit, barrier, pads)[c]
    {
      var items := SpoilerFrames(limit, barrier, pads, c);
      var i := if c == 2 then 1 else 0;
      assert items[i] == best[c];
    }
    SpanBound(best, o, o + limit);
  }

  lemma WinnerMissesTheBest(n: nat, limit: int, barrier: nat, minNew: nat, a: int)
    requires n >= 4 && limit >= 2
    requires AllCamerasHaveFrames(Spoiler(n, limit, barrier, minNew)) && Winner(Spoiler(n, limit, barrier, minNew), a)
    ensures CanBeHandedOver(Spoiler(n, limit, barrier, minNew), barrier, minNew)
    ensures |SpoilerBest(n, limit, barrier)| == n
    ensures IsBatch(Spoiler(n, limit, barrier, minNew), SpoilerBest(n, limit, barrier))
    ensures Span(SpoilerBest(n, limit, barrier)) <= limit
    ensures Span(Select(Spoiler(n, limit, barrier, minNew), a)) >= 2 * limit - 1
  {
    hide Span, Select, Spoiler, SpoilerBest, IsBatch, CanBeHandedOver;
    SpoilerHasFrames(n, limit, barrier, minNew);
    SpoilerBestFits(n, limit, barrier, minNew);
    WinnerIsAnchor(Spoiler(n, limit, barrier, minNew), a);
    SpoilerIsMissed(n, limit, barrier, minNew, a);
  }

  /**
   Four or more cameras can hand over frames with a batch that spans no more than the limit
   while the search can only settle for almost twice as much.
   */
  lemma FourCamerasCanMissTheMinimum(n: nat, limit: int, barrier: nat, minNew: nat)
    returns (cands: Candidates, best: seq<Pair>)
    requires n >= 4 && limit >= 2
    ensures |cands| == n && AllCamerasHaveFrames(cands) && CanBeHandedOver(cands, barrier, minNew)
    ensures IsBatch(cands, best) && Span(best) <= limit
    ensures forall a :: Winner(cands, a) ==> Span(Select(cands, a)) >= 2 * limit - 1
  {
    hide Span, Select, Winner, Spoiler, SpoilerBest, IsBatch, CanBeHandedOver;
    cands, best := Spoiler(n, limit, barrier, minNew), SpoilerBest(n, limit, barrier);
    SpoilerHasFrames(n, limit, barrier, minNew);
    var some := SomeWinner(cands);
    WinnerMissesTheBest(n, limit, barrier, minNew, some);
    forall a | Winner(cands, a)
      ensures Span(Select(cands, a)) >= 2 * limit - 1
    {
      WinnerMissesTheBest(n, limit, barrier, minNew, a);
    }
  }

  lemma SpoilerIsRejected(n: nat, limit: int, barrier: nat, pads: nat)
    requires n >= 4 && limit >= 2 && AllCamerasHaveFrames(Spoiler(n, limit, barrier, pads))
    ensures Chosen(Spoiler(n, limit, barrier, pads), limit, None) && !Finds(Spoiler(n, limit, barrier, pads), limit, None)
  {
    hide Winner, Select, Span, Spoiler, SpoilerBest, IsBatch;
    var a := SomeWinner(Spoiler(n, limit, barrier, pads));
    WinnerMissesTheBest(n, limit, barrier, pads, a);
  }

  lemma WinnerIsAnchor(cands: Candidates, a: int)
    requires AllCamerasHaveFrames(cands) && Winner(cands, a)
    ensures IsAnchor(cands, a)
  {
  }
}
