/**
 Farthest-point thinning of the candidate positions.  Distances are compared through
 their squares.
 */
module Maximin {
  import opened Options
  import opened Counting
  import opened Polylines
  import opened RealAlgebra

  predicate AreIndices(points: seq<Point>, picks: seq<nat>) {
    forall k :: 0 <= k < |picks| ==> picks[k] < |points|
  }

  /** The points with the given indices. */
  function At(points: seq<Point>, picks: seq<nat>): seq<Point>
    requires AreIndices(points, picks)
  {
    seq(|picks|, i requires 0 <= i < |picks| => points[picks[i]])
  }

  /** Southernmost, then westernmost. */
  predicate SouthWestOf(p: Point, q: Point) {
    p.y < q.y || (p.y == q.y && p.x <= q.x)
  }

  ghost predicate IsSouthWest(points: seq<Point>, i: nat)
    requires i < |points|
  {
    && (forall j :: 0 <= j < |points| ==> SouthWestOf(points[i], points[j]))
    && (forall j :: 0 <= j < i ==> !SouthWestOf(points[j], points[i]))
  }

  /** `i` is the first of the points farthest from the chosen ones. */
  ghost predicate IsFarthest(points: seq<Point>, chosen: seq<Point>, i: nat)
    requires i < |points| && |chosen| > 0
  {
    && (forall p :: 0 <= p < |points| ==> NearestSq(points[p], chosen) <= NearestSq(points[i], chosen))
    && (forall p :: 0 <= p < i ==> NearestSq(points[p], chosen) < NearestSq(points[i], chosen))
  }

  /** The picks start in the south-west corner and each later one is farthest from those before it. */
  ghost predicate FarthestFirst(points: seq<Point>, picks: seq<nat>) {
    && |picks| > 0
    && AreIndices(points, picks)
    && IsSouthWest(points, picks[0])
    && forall k {:trigger picks[k]} :: 0 < k < |picks| ==> IsFarthest(points, At(points, picks)[..k], picks[k])
  }

  lemma {:induction false} NearestAppend(p: Point, chosen: seq<Point>, q: Point)
    requires |chosen| > 0
    ensures NearestSq(p, chosen + [q]) == Min(NearestSq(p, chosen), DistSq(p, q))
  {
    if |chosen| == 1 {
      assert (chosen + [q])[1..] == [q];
    } else {
      NearestAppend(p, chosen[1..], q);
      assert (chosen + [q])[1..] == chosen[1..] + [q];
    }
  }

  // ---------------------------------------------------------------- the loop

  method SouthWest(points: seq<Point>) returns (first: nat)
    requires |points| > 0
    ensures first < |points| && IsSouthWest(points, first)
  {
    first := 0;
    for j := 1 to |points|
      invariant first < j
      invariant forall k :: 0 <= k < j ==> SouthWestOf(points[first], points[k])
      invariant forall k :: 0 <= k < first ==> !SouthWestOf(points[k], points[first])
    {
      if !SouthWestOf(points[first], points[j]) {
        first := j;
      }
    }
  }

  /** The first index of a largest entry. */
  method ArgMax(a: array<real>) returns (best: nat)
    requires a.Length > 0
    ensures best < a.Length
    ensures forall p :: 0 <= p < a.Length ==> a[p] <= a[best]
    ensures forall p :: 0 <= p < best ==> a[p] < a[best]
  {
    best := 0;
    for j := 1 to a.Length
      invariant best < j
      invariant forall p :: 0 <= p < j ==> a[p] <= a[best]
      invariant forall p :: 0 <= p < best ==> a[p] < a[best]
    {
      if a[j] > a[best] {
        best := j;
      }
    }
  }

  /** `nearestSq` holds every point's true squared distance to the chosen points. */
  ghost predicate Tracks(nearestSq: array<real>, points: seq<Point>, chosen: seq<Point>)
    reads nearestSq
  {
    && nearestSq.Length == |points| && |chosen| > 0
    && forall p :: 0 <= p < |points| ==> nearestSq[p] == NearestSq(points[p], chosen)
  }

  /** Lowers every entry to the squared distance from the new point where that is nearer. */
  method Absorb(nearestSq: array<real>, points: seq<Point>, q: Point, ghost chosen: seq<Point>)
    requires Tracks(nearestSq, points, chosen)
    modifies nearestSq
    ensures Tracks(nearestSq, points, chosen + [q])
  {
    hide DistSq, NearestSq;
    for p := 0 to |points|
      invariant forall k :: 0 <= k < p ==> nearestSq[k] == NearestSq(points[k], chosen + [q])
      invariant forall k :: p <= k < |points| ==> nearestSq[k] == NearestSq(points[k], chosen)
    {
      NearestAppend(points[p], chosen, q);
      nearestSq[p] := Min(nearestSq[p], DistSq(points[p], q));
    }
  }

  /** Thins the candidates to `count` of them; None when there are too few. */
  method Thin(points: seq<Point>, count: nat) returns (picks: Option<seq<nat>>)
    requires count >= 1
    ensures picks.None? <==> |points| < count
    ensures picks.Some? ==> |picks.value| == count && FarthestFirst(points, picks.value)
  {
    if |points| < count {
      return None;
    }
    hide DistSq, NearestSq, IsSouthWest;
    var first := SouthWest(points);
    var selected: seq<nat> := [first];
    var nearestSq := new real[|points|](p requires 0 <= p < |points| => DistSq(points[p], points[first]));
    OnePoint(points, first);
    for k := 1 to count
      invariant |selected| == k && FarthestFirst(points, selected) && Tracks(nearestSq, points, At(points, selected))
      invariant fresh(nearestSq)
    {
      var index := ArgMax(nearestSq);
      LargestIsFarthest(nearestSq, points, At(points, selected), index);
      PickExtends(points, selected, index);
      Absorb(nearestSq, points, points[index], At(points, selected));
      selected := selected + [index];
    }
    picks := Some(selected);
  }

  lemma LargestIsFarthest(nearestSq: array<real>, points: seq<Point>, chosen: seq<Point>, i: nat)
    requires Tracks(nearestSq, points, chosen) && i < |points|
    requires forall p :: 0 <= p < nearestSq.Length ==> nearestSq[p] <= nearestSq[i]
    requires forall p :: 0 <= p < i ==> nearestSq[p] < nearestSq[i]
    ensures IsFarthest(points, chosen, i)
  {
  }

  lemma OnePoint(points: seq<Point>, first: nat)
    requires first < |points|
    ensures forall p :: 0 <= p < |points| ==>
              NearestSq(points[p], At(points, [first])) == DistSq(points[p], points[first])
  {
  }

  lemma PickExtends(points: seq<Point>, picks: seq<nat>, index: nat)
    requires FarthestFirst(points, picks) && index < |points| && IsFarthest(points, At(points, picks), index)
    ensures FarthestFirst(points, picks + [index])
    ensures At(points, picks + [index]) == At(points, picks) + [points[index]]
  {
    hide IsFarthest, IsSouthWest;
    var more := picks + [index];
    forall k {:trigger more[k]} | 0 < k < |more|
      ensures IsFarthest(points, At(points, more)[..k], more[k])
    {
      if k < |picks| {
        assert At(points, more)[..k] == At(points, picks)[..k] && more[k] == picks[k];
      } else {
        assert At(points, more)[..k] == At(points, picks);
      }
    }
  }

  // ---------------------------------------------------------------- what thinning achieves

  /** Adding a centre can only shrink a point's distance to the selection. */
  lemma {:induction false} NearestShrinks(p: Point, chosen: seq<Point>, k: nat)
    requires 0 < k <= |chosen|
    ensures NearestSq(p, chosen) <= NearestSq(p, chosen[..k])
  {
    hide DistSq;
    if k < |chosen| {
      var last := |chosen| - 1;
      NearestShrinks(p, chosen[..last], k);
      assert chosen[..last][..k] == chosen[..k];
      NearestAppend(p, chosen[..last], chosen[last]);
      assert chosen == chosen[..last] + [chosen[last]];
    } else {
      assert chosen[..k] == chosen;
    }
  }

  lemma NearestIsBelow(p: Point, chosen: seq<Point>, i: nat)
    requires i < |chosen|
    ensures NearestSq(p, chosen) <= DistSq(p, chosen[i])
  {
    hide DistSq;
    NearestMeaning(p, chosen, DistSq(p, chosen[i]));
  }

  /** No two picks are closer to each other than the worst served candidate is to its nearest pick. */
  lemma CoveringRadiusIsBelowSeparation(points: seq<Point>, picks: seq<nat>, i: nat, j: nat)
    requires FarthestFirst(points, picks) && i < j < |picks|
    ensures DirectedSq(points, At(points, picks)) <= DistSq(points[picks[j]], points[picks[i]])
  {
    hide DistSq, NearestSq, DirectedSq;
    var chosen := At(points, picks);
    var sep := NearestSq(points[picks[j]], chosen[..j]);
    forall p | p in points
      ensures HasWithin(p, chosen, sep)
    {
      NearestShrinks(p, chosen, j);
      NearestMeaning(p, chosen, sep);
    }
    DirectedMeaning(points, chosen, sep);
    NearestIsBelow(points[picks[j]], chosen[..j], i);
  }

  lemma InSquares(p: Point, q: Point)
    ensures DistSq(p, q) == Square(p.x - q.x) + Square(p.y - q.y)
  {
  }

  lemma SquaredTriangle(a: Point, b: Point, c: Point)
    ensures DistSq(a, b) <= 2.0 * DistSq(a, c) + 2.0 * DistSq(b, c)
  {
    hide DistSq, Square;
    InSquares(a, b);
    InSquares(a, c);
    InSquares(b, c);
    var u, v := a.x - c.x, b.x - c.x;
    assert a.x - b.x == u - v;
    HalfSquare(u, v);
    u, v := a.y - c.y, b.y - c.y;
    assert a.y - b.y == u - v;
    HalfSquare(u, v);
  }

  /** The index of a centre within squared distance s of p. */
  lemma CentreOf(p: Point, centres: seq<Point>, s: real) returns (c: nat)
    requires HasWithin(p, centres, s)
    ensures c < |centres| && DistSq(p, centres[c]) <= s
  {
    var q :| q in centres && DistSq(p, q) <= s;
    c :| c < |centres| && centres[c] == q;
  }

  /** Two points with the same centre are within twice the covering radius. */
  lemma SharedCentre(a: Point, b: Point, c: Point, s: real)
    requires DistSq(a, c) <= s && DistSq(b, c) <= s
    ensures DistSq(a, b) <= 4.0 * s
  {
    hide DistSq;
    SquaredTriangle(a, b, c);
  }

  /** The picks together with a candidate that no pick serves better than `gap`. */
  ghost predicate PairwiseApart(witnesses: seq<Point>, gap: real) {
    forall i, j :: 0 <= i < j < |witnesses| ==> DistSq(witnesses[j], witnesses[i]) >= gap
  }

  /** More points, pairwise far apart, than centres: some centre has to serve two of them. */
  lemma TooManyForTheCentres(witnesses: seq<Point>, centres: seq<Point>, gap: real, s: real)
    requires PairwiseApart(witnesses, gap) && |witnesses| > |centres|
    requires CoveredWithin(witnesses, centres, s)
    ensures gap <= 4.0 * s
  {
    hide DistSq;
    var served: seq<nat> := [];
    while |served| < |witnesses|
      invariant |served| <= |witnesses|
      invariant forall k :: 0 <= k < |served| ==> served[k] < |centres| && DistSq(witnesses[k], centres[served[k]]) <= s
    {
      var c := CentreOf(witnesses[|served|], centres, s);
      served := served + [c];
    }
    var i, j := Pigeonhole(served, |centres|);
    SharedCentre(witnesses[j], witnesses[i], centres[served[i]], s);
  }

  /**
   The thinned selection covers the candidates within twice the radius that any other
   choice of as many centres achieves (four times, in squares).
   */
  lemma CoverIsWithinTwiceTheBest(points: seq<Point>, picks: seq<nat>, centres: seq<Point>)
    requires FarthestFirst(points, picks) && |centres| == |picks|
    ensures DirectedSq(points, At(points, picks)) <= 4.0 * DirectedSq(points, centres)
  {
    hide DistSq, NearestSq, DirectedSq;
    var chosen := At(points, picks);
    var s := DirectedSq(points, centres);
    var gap := DirectedSq(points, chosen);
    DirectedMeaning(points, centres, s);
    var far := FarthestPoint(points, chosen);
    var witnesses := chosen + [far];
    forall i, j | 0 <= i < j < |witnesses|
      ensures DistSq(witnesses[j], witnesses[i]) >= gap
    {
      if j < |chosen| {
        CoveringRadiusIsBelowSeparation(points, picks, i, j);
      } else {
        NearestIsBelow(far, chosen, i);
      }
    }
    TooManyForTheCentres(witnesses, centres, gap, s);
  }

  lemma {:induction false} FarthestPoint(points: seq<Point>, chosen: seq<Point>) returns (far: Point)
    requires |points| > 0 && |chosen| > 0
    ensures far in points && NearestSq(far, chosen) == DirectedSq(points, chosen)
  {
    hide NearestSq;
    far := points[0];
    if |points| > 1 {
      var other := FarthestPoint(points[1..], chosen);
      if NearestSq(other, chosen) > NearestSq(far, chosen) {
        far := other;
      }
    }
  }

  lemma ApartIsPositive(p: Point, q: Point)
    ensures p != q ==> DistSq(p, q) > 0.0
  {
    hide DistSq, Square;
    InSquares(p, q);
    SquareSign(p.x - q.x);
    SquareSign(p.y - q.y);
    if p.x == q.x && p.y == q.y {
      assert p == Point(q.x, q.y);
    }
  }

  lemma SelfIsZero(p: Point)
    ensures DistSq(p, p) == 0.0
  {
  }

  /** Distinct candidates give distinct picks, as long as no more are asked for than there are. */
  lemma PicksAreDistinct(points: seq<Point>, picks: seq<nat>)
    requires FarthestFirst(points, picks) && |picks| <= |points|
    requires forall i, j :: 0 <= i < j < |points| ==> points[i] != points[j]
    ensures NoRepeats(picks)
  {
    hide DistSq, NearestSq, DirectedSq;
    var chosen := At(points, picks);
    forall i, j | 0 <= i < j < |picks|
      ensures picks[i] != picks[j]
    {
      var v := SomeIndexMissing(picks[..j], |points|);
      assert IsFarthest(points, chosen[..j], picks[j]);
      if picks[i] == picks[j] {
        SelfIsZero(points[picks[j]]);
        NearestIsBelow(points[picks[j]], chosen[..j], i);
        assert NearestSq(points[v], chosen[..j]) <= 0.0;
        NearestMeaning(points[v], chosen[..j], 0.0);
        var k := CentreOf(points[v], chosen[..j], 0.0);
        ApartIsPositive(points[v], chosen[k]);
      }
    }
  }

  // ---------------------------------------------------------------- the candidates leave no choice

  /** The first pick is the lowest candidate, the leftmost of the lowest, and the first of those that stand there. */
  lemma StartsInTheSouthWest(points: seq<Point>, picks: seq<nat>, j: nat)
    requires FarthestFirst(points, picks) && j < |points|
    ensures var first := points[picks[0]];
            && first.y <= points[j].y && (points[j].y == first.y ==> first.x <= points[j].x)
            && (points[j] == first ==> picks[0] <= j)
  {
    hide IsFarthest;
    assert SouthWestOf(points[picks[0]], points[j]);
  }

  /** Every later pick is as far from the picks before it as any candidate, and the first such candidate. */
  lemma PicksAreFarthest(points: seq<Point>, picks: seq<nat>, k: nat, j: nat, gap: real)
    requires FarthestFirst(points, picks) && 0 < k < |picks| && j < |points|
    requires forall i :: 0 <= i < k ==> DistSq(points[j], points[picks[i]]) >= gap
    ensures forall i :: 0 <= i < k ==> DistSq(points[picks[k]], points[picks[i]]) >= NearestSq(points[j], At(points, picks)[..k]) >= gap
    ensures j < picks[k] ==> exists i :: 0 <= i < k && DistSq(points[j], points[picks[i]]) < NearestSq(points[picks[k]], At(points, picks)[..k])
  {
    hide DistSq, IsSouthWest;
    var chosen := At(points, picks)[..k];
    assert IsFarthest(points, chosen, picks[k]);
    hide NearestSq;
    NearestReached(points[j], chosen);
    NearestReached(points[picks[k]], chosen);
    forall i | 0 <= i < k
      ensures DistSq(points[picks[k]], points[picks[i]]) >= NearestSq(points[picks[k]], chosen)
    {
      assert chosen[i] == points[picks[i]];
    }
    var i: nat :| i < |chosen| && NearestSq(points[j], chosen) == DistSq(points[j], chosen[i]);
    assert chosen[i] == points[picks[i]];
  }

  /** The nearest distance is that of some vertex, and none is nearer. */
  lemma {:induction false} NearestReached(p: Point, b: seq<Point>)
    requires |b| > 0
    ensures exists i: nat :: i < |b| && NearestSq(p, b) == DistSq(p, b[i])
    ensures forall i: nat :: i < |b| ==> NearestSq(p, b) <= DistSq(p, b[i])
  {
    hide DistSq;
    if |b| > 1 {
      NearestReached(p, b[1..]);
      var k: nat :| k < |b[1..]| && NearestSq(p, b[1..]) == DistSq(p, b[1..][k]);
      assert b[1..][k] == b[k + 1];
      forall i: nat | i < |b|
        ensures NearestSq(p, b) <= DistSq(p, b[i])
      {
        assert i > 0 ==> b[1..][i - 1] == b[i];
      }
      assert NearestSq(p, b) == DistSq(p, b[0]) || NearestSq(p, b) == DistSq(p, b[k + 1]);
    } else {
      assert NearestSq(p, b) == DistSq(p, b[0]);
    }
  }

  /** So two thinnings to the same number of positions are the same. */
  lemma {:induction false} ThinningIsDetermined(points: seq<Point>, picks: seq<nat>, others: seq<nat>, n: nat)
    requires FarthestFirst(points, picks) && FarthestFirst(points, others) && |picks| == |others| && n <= |picks|
    ensures picks[..n] == others[..n]
  {
    hide DistSq, NearestSq;
    if n > 0 {
      ThinningIsDetermined(points, picks, others, n - 1);
      var k := n - 1;
      if k == 0 {
        StartsInTheSouthWest(points, picks, others[0]);
        StartsInTheSouthWest(points, others, picks[0]);
      } else {
        var a, b := At(points, picks)[..k], At(points, others)[..k];
        assert a == b by {
          forall i | 0 <= i < k
            ensures a[i] == b[i]
          {
            assert picks[..k][i] == others[..k][i];
          }
        }
        assert IsFarthest(points, a, picks[k]) && IsFarthest(points, b, others[k]);
      }
      assert picks[k] == others[k];
      assert picks[..n] == picks[..k] + [picks[k]] && others[..n] == others[..k] + [others[k]];
    }
  }
}
