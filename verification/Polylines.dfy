/**
 Polylines in the plane and their symmetric Hausdorff distance.  Distances are
 compared through their squares, so no square root is needed.
 */
module Polylines {
  import opened Grid

  datatype Point = Point(x: real, y: real)

  function DistSq(p: Point, q: Point): real {
    (p.x - q.x) * (p.x - q.x) + (p.y - q.y) * (p.y - q.y)
  }

  function Min(a: real, b: real): real {
    if a <= b then a else b
  }

  function Max(a: real, b: real): real {
    if a >= b then a else b
  }

  /** The cell centres of a grid path. */
  function ToXY(xs: seq<real>, ys: seq<real>, path: seq<Cell>): seq<Point>
    requires forall p :: p in path ==> 0 <= p.r < |ys| && 0 <= p.c < |xs|
  {
    seq(|path|, i requires 0 <= i < |path| => Point(xs[path[i].c], ys[path[i].r]))
  }

  /** Squared distance from p to the nearest vertex of b. */
  function NearestSq(p: Point, b: seq<Point>): real
    requires |b| > 0
  {
    if |b| == 1 then DistSq(p, b[0]) else Min(DistSq(p, b[0]), NearestSq(p, b[1..]))
  }

  /** Squared directed distance: the vertex of a farthest from b. */
  function DirectedSq(a: seq<Point>, b: seq<Point>): real
    requires |a| > 0 && |b| > 0
  {
    if |a| == 1 then NearestSq(a[0], b) else Max(NearestSq(a[0], b), DirectedSq(a[1..], b))
  }

  /** Squared symmetric Hausdorff distance. */
  function HausdorffSq(a: seq<Point>, b: seq<Point>): real
    requires |a| > 0 && |b| > 0
  {
    Max(DirectedSq(a, b), DirectedSq(b, a))
  }

  ghost predicate HasWithin(p: Point, b: seq<Point>, s: real) {
    exists q :: q in b && DistSq(p, q) <= s
  }

  /** Every vertex of a has a vertex of b within squared distance s. */
  ghost predicate CoveredWithin(a: seq<Point>, b: seq<Point>, s: real) {
    forall p :: p in a ==> HasWithin(p, b, s)
  }

  lemma {:induction false} NearestMeaning(p: Point, b: seq<Point>, s: real)
    requires |b| > 0
    ensures NearestSq(p, b) <= s <==> HasWithin(p, b, s)
  {
    if |b| == 1 {
      assert b[0] in b;
    } else {
      NearestMeaning(p, b[1..], s);
      assert forall q :: q in b <==> q == b[0] || q in b[1..];
    }
  }

  lemma {:induction false} DirectedMeaning(a: seq<Point>, b: seq<Point>, s: real)
    requires |a| > 0 && |b| > 0
    ensures DirectedSq(a, b) <= s <==> CoveredWithin(a, b, s)
  {
    NearestMeaning(a[0], b, s);
    if |a| == 1 {
      assert forall p :: p in a <==> p == a[0];
    } else {
      DirectedMeaning(a[1..], b, s);
      assert forall p :: p in a <==> p == a[0] || p in a[1..];
    }
  }

  /** Two polylines are within s exactly when each covers the other within s. */
  lemma HausdorffMeaning(a: seq<Point>, b: seq<Point>, s: real)
    requires |a| > 0 && |b| > 0
    ensures HausdorffSq(a, b) <= s <==> CoveredWithin(a, b, s) && CoveredWithin(b, a, s)
  {
    DirectedMeaning(a, b, s);
    DirectedMeaning(b, a, s);
  }

  lemma HausdorffSymmetric(a: seq<Point>, b: seq<Point>)
    requires |a| > 0 && |b| > 0
    ensures HausdorffSq(a, b) == HausdorffSq(b, a)
  {
  }
}
