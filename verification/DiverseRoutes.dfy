/**
 The menu of routes offered for one task: the shortest path, then deviations that
 each avoid one small disc on it.
 */
module DiverseRoutes {
  import opened Options
  import opened Grid
  import opened Routing
  import opened Polylines
  import opened Dijkstra

  const MAX_ROUTES := 6
  const G3_MIN_SEP_SQ := 9.0                       // G3_MIN_SEP_M squared
  const CUT_RADII_M: seq<real> := [0.75, 1.30, 2.20]
  const CUT_STEP := 12                             // 1.20 m in cells

  function Ceil(x: real): int {
    -((-x).Floor)
  }

  /** The centre of cell p lies within the metric radius of the centre cell. */
  predicate InDisc(centre: Cell, radius: real, p: Cell) {
    Squares(p.r - centre.r, p.c - centre.c) as real * RES * RES <= radius * radius
  }

  function Squares(dy: int, dx: int): int {
    dy * dy + dx * dx
  }

  lemma SquaresExceed(d: int, other: int, k: int)
    requires 0 <= k < d || d < -k <= 0
    ensures Squares(d, other) == Squares(other, d) >= (k + 1) * (k + 1)
  {
    var m := if d < 0 then -d else d;
    assert d * d == m * m;
    SquareMonotone(k + 1, m);
    SquareMonotone(0, if other < 0 then -other else other);
  }

  lemma SquareMonotone(a: int, b: int)
    requires 0 <= a <= b
    ensures a * a <= b * b
  {
    assert (b - a) * a >= 0 && (b - a) * b >= 0;
  }

  lemma ScaledSquareExceeds(n: int, radius: real)
    requires radius >= 0.0 && n as real * RES > radius
    ensures (n * n) as real * RES * RES > radius * radius
  {
    var a := n as real * RES;
    assert (n * n) as real == n as real * n as real;
    assert (n * n) as real * RES * RES == a * a;
    SquareGrows(radius, a);
  }

  lemma SquareGrows(x: real, y: real)
    requires 0.0 <= x < y
    ensures x * x < y * y
  {
    assert (y - x) * x >= 0.0;
    assert (y - x) * y > 0.0;
  }

  /** The stamp's window of k cells on each side holds the whole disc. */
  lemma WindowHoldsDisc(centre: Cell, radius: real, p: Cell)
    requires radius >= 0.0 && InDisc(centre, radius, p)
    ensures var k := Ceil(radius / RES);
            -k <= p.r - centre.r <= k && -k <= p.c - centre.c <= k
  {
    var k := Ceil(radius / RES);
    var dy, dx := p.r - centre.r, p.c - centre.c;
    ScaledSquareExceeds(k + 1, radius);
    if !(-k <= dy <= k) {
      SquaresExceed(dy, dx, k);
    } else if !(-k <= dx <= k) {
      SquaresExceed(dx, dy, k);
    }
  }

  /** Marks the grid cells whose centres lie within `radius` metres of the centre cell. */
  method Disc(rows: nat, cols: nat, centre: Cell, radius: real) returns (disc: array2<bool>)
    requires radius >= 0.0
    ensures fresh(disc) && disc.Length0 == rows && disc.Length1 == cols
    ensures forall r, c :: 0 <= r < rows && 0 <= c < cols ==>
              (disc[r, c] <==> InDisc(centre, radius, Cell(r, c)))
  {
    hide InDisc;
    var k := Ceil(radius / RES);
    disc := new bool[rows, cols]((i, j) => false);
    var r0, r1 := if centre.r - k < 0 then 0 else centre.r - k, if centre.r + k + 1 < rows then centre.r + k + 1 else rows;
    var c0, c1 := if centre.c - k < 0 then 0 else centre.c - k, if centre.c + k + 1 < cols then centre.c + k + 1 else cols;
    var r := r0;
    while r < r1
      invariant r0 <= r
      invariant forall i, j :: 0 <= i < rows && 0 <= j < cols ==>
                  disc[i, j] == (r0 <= i < r && c0 <= j < c1 && InDisc(centre, radius, Cell(i, j)))
    {
      var c := c0;
      while c < c1
        invariant c0 <= c && (c <= c1 || c == c0)
        invariant forall i, j :: 0 <= i < rows && 0 <= j < cols ==>
                    disc[i, j] == (((r0 <= i < r && c0 <= j < c1) || (i == r && c0 <= j < c))
                                   && InDisc(centre, radius, Cell(i, j)))
      {
        disc[r, c] := InDisc(centre, radius, Cell(r, c));
        c := c + 1;
      }
      r := r + 1;
    }
    forall i, j | 0 <= i < rows && 0 <= j < cols && InDisc(centre, radius, Cell(i, j))
      ensures r0 <= i < r1 && c0 <= j < c1
    {
      WindowHoldsDisc(centre, radius, Cell(i, j));
    }
  }

  /** A cut at every CUT_STEP-th cell of the base path, about 1.2 m apart, none within one step of its ends. */
  function CutsFrom(base: seq<Cell>, i: nat): seq<Cell>
    decreases |base| - i
  {
    if 0 < i < |base| - CUT_STEP then [base[i]] + CutsFrom(base, i + CUT_STEP) else []
  }

  function CutCells(base: seq<Cell>): seq<Cell> {
    CutsFrom(base, CUT_STEP)
  }

  lemma {:induction false} CutsFromAt(base: seq<Cell>, i: nat, b: nat)
    requires i > 0
    ensures b < |CutsFrom(base, i)| <==> i + b * CUT_STEP < |base| - CUT_STEP
    ensures b < |CutsFrom(base, i)| ==> CutsFrom(base, i)[b] == base[i + b * CUT_STEP]
    decreases b
  {
    if b > 0 {
      CutsFromAt(base, i + CUT_STEP, b - 1);
    }
  }

  /** One disc to avoid. */
  datatype Cut = Cut(cell: Cell, radius: real)

  /** Which cut it is: the place of its radius in the list, and how many steps along the base path. */
  datatype Place = Place(radius: nat, k: nat)

  /** The cuts of a base path: every radius at every CUT_STEP-th cell that is more than a step from both ends. */
  ghost predicate IsPlace(base: seq<Cell>, p: Place) {
    p.radius < |CUT_RADII_M| && p.k >= 1 && p.k * CUT_STEP < |base| - CUT_STEP
  }

  ghost function CutAt(base: seq<Cell>, p: Place): Cut
    requires IsPlace(base, p)
  {
    Cut(base[p.k * CUT_STEP], CUT_RADII_M[p.radius])
  }

  /** Smaller radii first, then along the base path. */
  predicate Precedes(p: Place, q: Place) {
    p.radius < q.radius || (p.radius == q.radius && p.k < q.k)
  }

  /** The list of cut cells runs through the places of one radius. */
  lemma CutCellsArePlaces(base: seq<Cell>, radius: nat, b: nat)
    requires radius < |CUT_RADII_M|
    ensures b < |CutCells(base)| <==> IsPlace(base, Place(radius, b + 1))
    ensures b < |CutCells(base)| ==> CutCells(base)[b] == CutAt(base, Place(radius, b + 1)).cell
  {
    CutsFromAt(base, CUT_STEP, b);
    assert (b + 1) * CUT_STEP == CUT_STEP + b * CUT_STEP;
  }

  /** Every cut cell lies inside the base path. */
  lemma PlaceIsInside(base: seq<Cell>, p: Place)
    requires IsPlace(base, p)
    ensures 0 < p.k * CUT_STEP < |base| - 1
  {
  }

  /** The free cells with the disc removed; start and goal are always kept. */
  ghost function TrialFree(free: set<Cell>, start: Cell, goal: Cell, cut: Cut): set<Cell> {
    (set p | p in free && !InDisc(cut.cell, cut.radius, p)) + {start, goal}
  }

  /** The mask without the disc around the cut, start and goal forced free. */
  method TrialMask(mask: array2<bool>, start: Cell, goal: Cell, cut: Cut) returns (trial: array2<bool>)
    requires InBounds(mask, start) && InBounds(mask, goal) && cut.radius >= 0.0
    ensures fresh(trial) && trial.Length0 == mask.Length0 && trial.Length1 == mask.Length1
    ensures TrueCells(trial) == TrialFree(TrueCells(mask), start, goal, cut)
  {
    hide InDisc;
    var disc := Disc(mask.Length0, mask.Length1, cut.cell, cut.radius);
    trial := new bool[mask.Length0, mask.Length1](
      (i, j) requires 0 <= i < mask.Length0 && 0 <= j < mask.Length1
             requires disc.Length0 == mask.Length0 && disc.Length1 == mask.Length1
             reads mask, disc => mask[i, j] && !disc[i, j]);
    trial[start.r, start.c] := true;
    trial[goal.r, goal.c] := true;
    forall p
      ensures p in TrueCells(trial) <==> p in TrialFree(TrueCells(mask), start, goal, cut)
    {
      assert p == Cell(p.r, p.c);
    }
  }

  /** A shortest path never comes back to its start. */
  lemma ShortestLeavesStart(free: set<Cell>, diagonal: real, start: Cell, goal: Cell, p: seq<Cell>, i: nat)
    requires diagonal > 0.0 && Shortest(free, diagonal, start, goal, p) && 0 < i < |p|
    ensures p[i] != start
  {
    hide Cost;
    if p[i] == start {
      var tail := p[i..];
      assert forall j :: 0 <= j < |tail| ==> tail[j] == p[i + j];
      assert IsPath(free, start, goal, tail);
      CostSplits(diagonal, p, i);
      CostNonNegative(diagonal, p[..i + 1]);
    }
  }

  /**
   A shortest route of a trial mask is a route of the mask itself, no shorter than the
   base route, and meets the removed disc at most at start and goal.
   */
  lemma AlternativeIsValid(free: set<Cell>, diagonal: real, start: Cell, goal: Cell, base: seq<Cell>,
                           cut: Cut, p: seq<Cell>)
    requires diagonal > 0.0 && Shortest(free, diagonal, start, goal, base)
    requires Shortest(TrialFree(free, start, goal, cut), diagonal, start, goal, p)
    ensures IsPath(free, start, goal, p) && Cost(diagonal, base) <= Cost(diagonal, p)
    ensures forall c :: c in p && c != start && c != goal ==> !InDisc(cut.cell, cut.radius, c)
  {
    hide InDisc;
    forall i {:trigger p[i]} | 0 <= i < |p| - 1
      ensures Edge(free, p[i], p[i + 1])
    {
      assert Edge(TrialFree(free, start, goal, cut), p[i], p[i + 1]);
      ShortestLeavesStart(TrialFree(free, start, goal, cut), diagonal, start, goal, p, i + 1);
      if p[i + 1] == goal {
        assert Edge(free, base[|base| - 2], base[|base| - 1]);
      }
    }
    forall c | c in p && c != start && c != goal
      ensures !InDisc(cut.cell, cut.radius, c)
    {
      var i :| 0 <= i < |p| && p[i] == c;
      assert Edge(TrialFree(free, start, goal, cut), p[i - 1], p[i]);
    }
  }

  /** A shortest path meets its goal only at the end. */
  lemma ShortestReachesGoalOnce(free: set<Cell>, diagonal: real, start: Cell, goal: Cell, p: seq<Cell>, i: nat)
    requires diagonal > 0.0 && Shortest(free, diagonal, start, goal, p) && i < |p| - 1
    ensures p[i] != goal
  {
    if p[i] == goal {
      var head := p[..i + 1];
      assert forall j :: 0 <= j < |head| ==> head[j] == p[j];
      assert IsPath(free, start, goal, head);
      CostSplits(diagonal, p, i);
      CostNonNegative(diagonal, p[i..]);
    }
  }

  /** The cell a cut is centred on lies on the base route and on no route of its trial mask. */
  lemma AlternativeMissesCutCell(free: set<Cell>, diagonal: real, start: Cell, goal: Cell, base: seq<Cell>,
                                 cut: Cut, p: seq<Cell>)
    requires diagonal > 0.0 && Shortest(free, diagonal, start, goal, base)
    requires Shortest(TrialFree(free, start, goal, cut), diagonal, start, goal, p)
    requires exists j :: 0 < j < |base| - 1 && base[j] == cut.cell
    ensures cut.cell in base && cut.cell !in p
  {
    hide InDisc, Shortest;
    var j :| 0 < j < |base| - 1 && base[j] == cut.cell;
    ShortestLeavesStart(free, diagonal, start, goal, base, j);
    ShortestReachesGoalOnce(free, diagonal, start, goal, base, j);
    AlternativeIsValid(free, diagonal, start, goal, base, cut, p);
    CentreInDisc(cut.cell, cut.radius);
  }

  lemma CentreInDisc(centre: Cell, radius: real)
    ensures InDisc(centre, radius, centre)
  {
    SquareNonNegative(radius);
    assert Squares(centre.r - centre.r, centre.c - centre.c) == 0;
  }

  lemma SquareNonNegative(x: real)
    ensures x * x >= 0.0
  {
  }

  /** Vertices of a route are cells of the grid. */
  ghost predicate OnGrid(path: seq<Cell>, rows: int, cols: int) {
    forall p :: p in path ==> 0 <= p.r < rows && 0 <= p.c < cols
  }

  /** `poly` keeps its distance from every polyline of the menu. */
  ghost predicate FarFromAll(poly: seq<Point>, kept: seq<seq<Point>>) {
    forall i :: 0 <= i < |kept| ==> |kept[i]| > 0 && |poly| > 0 && HausdorffSq(poly, kept[i]) >= G3_MIN_SEP_SQ
  }

  /** Whether some kept polyline is nearer than the separation. */
  method TooClose(poly: seq<Point>, kept: seq<seq<Point>>) returns (close: bool)
    requires |poly| > 0 && forall i :: 0 <= i < |kept| ==> |kept[i]| > 0
    ensures close <==> !FarFromAll(poly, kept)
  {
    hide HausdorffSq;
    for i := 0 to |kept|
      invariant forall j :: 0 <= j < i ==> HausdorffSq(poly, kept[j]) >= G3_MIN_SEP_SQ
    {
      if HausdorffSq(poly, kept[i]) < G3_MIN_SEP_SQ {
        return true;
      }
    }
    return false;
  }

  /** The route that the search returns. */
  ghost predicate IsRoute(free: set<Cell>, diagonal: real, start: Cell, goal: Cell, p: seq<Cell>) {
    Shortest(free, diagonal, start, goal, p) && FirstChoice(free, diagonal, start, p)
  }

  /** The routes behind a menu: the base, then one alternative per cut that was kept. */
  datatype Origin = Origin(base: seq<Cell>, places: seq<Place>, alternatives: seq<seq<Cell>>) {
    ghost function Route(i: nat): seq<Cell>
      requires i <= |alternatives|
    {
      if i == 0 then base else alternatives[i - 1]
    }
  }

  /**
   Every menu entry is the polyline of its route; alternatives are shortest in their trial
   mask, and stand in the order of their cuts.
   */
  ghost predicate IsMenu(free: set<Cell>, diagonal: real, start: Cell, goal: Cell, xs: seq<real>, ys: seq<real>,
                         kept: seq<seq<Point>>, o: Origin) {
    && |o.places| == |o.alternatives| && |kept| == |o.alternatives| + 1
    && IsRoute(free, diagonal, start, goal, o.base)
    && (forall i :: 0 <= i < |kept| ==> OnGrid(o.Route(i), |ys|, |xs|) && kept[i] == ToXY(xs, ys, o.Route(i)))
    && (forall i {:trigger o.places[i]} :: 0 <= i < |o.places| ==>
          && IsPlace(o.base, o.places[i])
          && IsRoute(TrialFree(free, start, goal, CutAt(o.base, o.places[i])), diagonal, start, goal, o.alternatives[i]))
    && (forall i, j :: 0 <= i < j < |o.places| ==> Precedes(o.places[i], o.places[j]))
    && (forall i {:trigger kept[i]} :: 0 <= i < |kept| ==> FarFromAll(kept[i], kept[..i]))
  }

  /**
   The cut is left out with a reason: its trial mask admits no route, or the route found
   there lies closer than the separation to one of these.
   */
  ghost predicate Represented(free: set<Cell>, diagonal: real, start: Cell, goal: Cell, xs: seq<real>, ys: seq<real>,
                              kept: seq<seq<Point>>, cut: Cut) {
    || !(exists p :: IsPath(TrialFree(free, start, goal, cut), start, goal, p))
    || exists p :: && IsRoute(TrialFree(free, start, goal, cut), diagonal, start, goal, p)
                   && OnGrid(p, |ys|, |xs|) && !FarFromAll(ToXY(xs, ys, p), kept)
  }

  lemma PathOnGrid(mask: array2<bool>, start: Cell, goal: Cell, p: seq<Cell>)
    requires IsPath(TrueCells(mask), start, goal, p) && InBounds(mask, start)
    ensures OnGrid(p, mask.Length0, mask.Length1)
  {
    hide TrueCells;
    forall c | c in p
      ensures InBounds(mask, c)
    {
      var i :| 0 <= i < |p| && p[i] == c;
      if i > 0 {
        assert Edge(TrueCells(mask), p[i - 1], p[i]);
        TrueCellsInBounds(mask, c);
      }
    }
  }

  lemma TrueCellsInBounds(mask: array2<bool>, c: Cell)
    requires c in TrueCells(mask)
    ensures InBounds(mask, c)
  {
  }

  lemma MenuExtends(free: set<Cell>, diagonal: real, start: Cell, goal: Cell, xs: seq<real>, ys: seq<real>,
                    kept: seq<seq<Point>>, o: Origin, at: Place, p: seq<Cell>)
    requires IsMenu(free, diagonal, start, goal, xs, ys, kept, o)
    requires IsPlace(o.base, at) && forall i :: 0 <= i < |o.places| ==> Precedes(o.places[i], at)
    requires IsRoute(TrialFree(free, start, goal, CutAt(o.base, at)), diagonal, start, goal, p) && OnGrid(p, |ys|, |xs|)
    requires FarFromAll(ToXY(xs, ys, p), kept)
    ensures IsMenu(free, diagonal, start, goal, xs, ys, kept + [ToXY(xs, ys, p)],
                   Origin(o.base, o.places + [at], o.alternatives + [p]))
  {
    hide IsRoute, HausdorffSq, TrialFree;
    var poly := ToXY(xs, ys, p);
    var more, o' := kept + [poly], Origin(o.base, o.places + [at], o.alternatives + [p]);
    forall i | 0 <= i < |more|
      ensures OnGrid(o'.Route(i), |ys|, |xs|) && more[i] == ToXY(xs, ys, o'.Route(i))
    {
      if i < |kept| {
        assert o'.Route(i) == o.Route(i);
      }
    }
    forall i {:trigger more[i]} | 0 <= i < |more|
      ensures FarFromAll(more[i], more[..i])
    {
      if i < |kept| {
        assert more[..i] == kept[..i] && more[i] == kept[i];
      } else {
        assert more[..i] == kept;
      }
    }
  }

  /** Consequences for a caller: the menu's guarantees, route by route. */
  lemma MenuGuarantees(free: set<Cell>, diagonal: real, start: Cell, goal: Cell, xs: seq<real>, ys: seq<real>,
                       kept: seq<seq<Point>>, o: Origin, i: nat, j: nat)
    requires diagonal > 0.0 && IsMenu(free, diagonal, start, goal, xs, ys, kept, o) && i < |kept| && j < |kept|
    ensures IsPath(free, start, goal, o.Route(i)) && Cost(diagonal, o.base) <= Cost(diagonal, o.Route(i))
    ensures i > 0 ==> var cut := CutAt(o.base, o.places[i - 1]);
                      && cut.cell in o.base && cut.cell !in o.Route(i)
                      && forall c :: c in o.Route(i) && c != start && c != goal ==> !InDisc(cut.cell, cut.radius, c)
    ensures i != j ==> |kept[i]| > 0 && |kept[j]| > 0 && HausdorffSq(kept[i], kept[j]) >= G3_MIN_SEP_SQ
  {
    hide InDisc, HausdorffSq, Shortest, FirstChoice;
    if i > 0 {
      var cut := CutAt(o.base, o.places[i - 1]);
      PlaceIsInside(o.base, o.places[i - 1]);
      AlternativeIsValid(free, diagonal, start, goal, o.base, cut, o.alternatives[i - 1]);
      AlternativeMissesCutCell(free, diagonal, start, goal, o.base, cut, o.alternatives[i - 1]);
    } else {
      BaseIsPath(free, diagonal, start, goal, o.base);
    }
    if i < j {
      assert kept[..j][i] == kept[i];
      HausdorffSymmetric(kept[i], kept[j]);
    } else if j < i {
      assert kept[..i][j] == kept[j];
    }
  }

  // ---------------------------------------------------------------- the same in metres

  ghost predicate EvenlySpaced(xs: seq<real>) {
    forall i, j :: 0 <= i < |xs| && 0 <= j < |xs| ==> xs[j] - xs[i] == RES * (j - i) as real
  }

  function CentreOf(xs: seq<real>, ys: seq<real>, p: Cell): Point
    requires 0 <= p.r < |ys| && 0 <= p.c < |xs|
  {
    Point(xs[p.c], ys[p.r])
  }

  lemma SquareInMetres(d: int, m: real)
    requires m == RES * d as real
    ensures m * m == (d * d) as real * RES * RES
  {
    assert (d * d) as real == d as real * d as real;
    assert m * m == RES * d as real * (RES * d as real);
  }

  /** On a grid of RES spacing the disc holds exactly the cells whose centres lie within the radius. */
  lemma DiscIsMetric(xs: seq<real>, ys: seq<real>, centre: Cell, radius: real, p: Cell)
    requires EvenlySpaced(xs) && EvenlySpaced(ys)
    requires 0 <= p.r < |ys| && 0 <= p.c < |xs| && 0 <= centre.r < |ys| && 0 <= centre.c < |xs|
    ensures InDisc(centre, radius, p) <==> DistSq(CentreOf(xs, ys, p), CentreOf(xs, ys, centre)) <= radius * radius
  {
    var dy, dx := p.r - centre.r, p.c - centre.c;
    SquareInMetres(dy, ys[p.r] - ys[centre.r]);
    SquareInMetres(dx, xs[p.c] - xs[centre.c]);
    assert Squares(dy, dx) as real == (dy * dy) as real + (dx * dx) as real;
  }

  /** The polyline of an alternative keeps more than the radius of its cut away from the cut cell, its ends apart. */
  lemma AlternativeKeepsClear(free: set<Cell>, diagonal: real, start: Cell, goal: Cell, xs: seq<real>, ys: seq<real>,
                              base: seq<Cell>, cut: Cut, p: seq<Cell>, v: nat)
    requires diagonal > 0.0 && Shortest(free, diagonal, start, goal, base)
    requires Shortest(TrialFree(free, start, goal, cut), diagonal, start, goal, p)
    requires EvenlySpaced(xs) && EvenlySpaced(ys) && OnGrid(p, |ys|, |xs|) && 0 <= cut.cell.r < |ys| && 0 <= cut.cell.c < |xs|
    requires v < |p| && p[v] != start && p[v] != goal
    ensures DistSq(ToXY(xs, ys, p)[v], CentreOf(xs, ys, cut.cell)) > cut.radius * cut.radius
  {
    hide InDisc, DistSq, EvenlySpaced, Shortest, TrialFree, IsPath;
    AlternativeIsValid(free, diagonal, start, goal, base, cut, p);
    assert p[v] in p;
    DiscIsMetric(xs, ys, cut.cell, cut.radius, p[v]);
  }

  lemma BaseIsPath(free: set<Cell>, diagonal: real, start: Cell, goal: Cell, base: seq<Cell>)
    requires Shortest(free, diagonal, start, goal, base)
    ensures IsPath(free, start, goal, base)
  {
  }

  /** Solves one cut: None when the trial mask admits no route. */
  method SolveCut(mask: array2<bool>, start: Cell, goal: Cell, diagonal: real, cut: Cut)
    returns (path: Option<seq<Cell>>)
    requires InBounds(mask, start) && InBounds(mask, goal) && diagonal > 0.0 && cut.radius >= 0.0
    ensures path.None? <==> !exists p :: IsPath(TrialFree(TrueCells(mask), start, goal, cut), start, goal, p)
    ensures path.Some? ==>
              && IsRoute(TrialFree(TrueCells(mask), start, goal, cut), diagonal, start, goal, path.value)
              && OnGrid(path.value, mask.Length0, mask.Length1)
  {
    hide TrialFree, TrueCells, IsPath, Shortest, FirstChoice;
    var trial := TrialMask(mask, start, goal, cut);
    ghost var trialFree := TrialFree(TrueCells(mask), start, goal, cut);
    ghost var expanded;
    assert TrueCells(trial) == trialFree;
    path, expanded := ShortestPath(trial, start, goal, diagonal);
    assert TrueCells(trial) == trialFree == TrialFree(TrueCells(mask), start, goal, cut);
    if path.Some? {
      BaseIsPath(trialFree, diagonal, start, goal, path.value);
      PathOnGrid(trial, start, goal, path.value);
    }
  }

  lemma BaseMenu(free: set<Cell>, diagonal: real, start: Cell, goal: Cell, xs: seq<real>, ys: seq<real>, base: seq<Cell>)
    requires IsRoute(free, diagonal, start, goal, base) && OnGrid(base, |ys|, |xs|)
    ensures IsMenu(free, diagonal, start, goal, xs, ys, [ToXY(xs, ys, base)], Origin(base, [], []))
  {
    var kept := [ToXY(xs, ys, base)];
    assert kept[..0] == [];
  }

  lemma MenuRoutesAreNonEmpty(free: set<Cell>, diagonal: real, start: Cell, goal: Cell, xs: seq<real>, ys: seq<real>,
                              kept: seq<seq<Point>>, o: Origin)
    requires IsMenu(free, diagonal, start, goal, xs, ys, kept, o)
    ensures forall i :: 0 <= i < |kept| ==> |kept[i]| > 0
  {
    forall i | 0 <= i < |kept|
      ensures |kept[i]| > 0
    {
      if i > 0 {
        assert FarFromAll(kept[i], kept[..i]) && kept[..i][0] == kept[0];
      }
    }
  }

  /** Treats one cut: adds its route to the menu unless there is none or it lies too close to one kept. */
  method TryCut(mask: array2<bool>, start: Cell, goal: Cell, xs: seq<real>, ys: seq<real>, diagonal: real,
                cut: Cut, kept: seq<seq<Point>>, ghost o: Origin, ghost at: Place)
    returns (more: seq<seq<Point>>, ghost o': Origin)
    requires InBounds(mask, start) && InBounds(mask, goal) && diagonal > 0.0
    requires |ys| == mask.Length0 && |xs| == mask.Length1
    requires IsMenu(TrueCells(mask), diagonal, start, goal, xs, ys, kept, o)
    requires IsPlace(o.base, at) && cut == CutAt(o.base, at)
    requires forall i :: 0 <= i < |o.places| ==> Precedes(o.places[i], at)
    ensures IsMenu(TrueCells(mask), diagonal, start, goal, xs, ys, more, o') && o'.base == o.base
    ensures o'.places == if more == kept then o.places else o.places + [at]
    ensures |more| <= |kept| + 1 && kept <= more
    ensures more == kept ==> Represented(TrueCells(mask), diagonal, start, goal, xs, ys, kept, cut)
  {
    hide TrueCells, TrialFree, IsPath, Shortest, FirstChoice, HausdorffSq, IsMenu;
    more, o' := kept, o;
    var path := SolveCut(mask, start, goal, diagonal, cut);
    if path.None? {
      return;
    }
    PathNonEmpty(TrialFree(TrueCells(mask), start, goal, cut), diagonal, start, goal, path.value);
    MenuRoutesAreNonEmpty(TrueCells(mask), diagonal, start, goal, xs, ys, kept, o);
    var poly := ToXY(xs, ys, path.value);
    var close := TooClose(poly, kept);
    if close {
      return;
    }
    MenuExtends(TrueCells(mask), diagonal, start, goal, xs, ys, kept, o, at, path.value);
    more := kept + [poly];
    o' := Origin(o.base, o.places + [at], o.alternatives + [path.value]);
  }

  lemma PathNonEmpty(free: set<Cell>, diagonal: real, start: Cell, goal: Cell, p: seq<Cell>)
    requires Shortest(free, diagonal, start, goal, p)
    ensures |p| > 0
  {
  }

  /** The place belongs to an earlier radius or is among the first `tried` of the present one. */
  predicate Tried(p: Place, radius: nat, tried: nat) {
    p.radius < radius || (p.radius == radius && p.k <= tried)
  }

  /** The place comes after exactly the first n of the places kept, and is none of them. */
  ghost predicate Falls(places: seq<Place>, p: Place, n: nat) {
    && n <= |places| && (forall i :: 0 <= i < n ==> Precedes(places[i], p))
    && (n < |places| ==> Precedes(p, places[n]))
  }

  /** Each cut tried so far is on the menu or was left out because of the routes that were on it before. */
  ghost predicate AllRepresented(free: set<Cell>, diagonal: real, start: Cell, goal: Cell, xs: seq<real>, ys: seq<real>,
                                 kept: seq<seq<Point>>, o: Origin, radius: nat, tried: nat) {
    && |kept| == |o.places| + 1
    && forall p: Place, n: nat {:trigger Falls(o.places, p, n)} ::
         IsPlace(o.base, p) && Tried(p, radius, tried) && Falls(o.places, p, n) ==>
           Represented(free, diagonal, start, goal, xs, ys, kept[..n + 1], CutAt(o.base, p))
  }

  ghost predicate InOrder(places: seq<Place>) {
    forall i, j :: 0 <= i < j < |places| ==> Precedes(places[i], places[j])
  }

  lemma OneMoreRepresented(free: set<Cell>, diagonal: real, start: Cell, goal: Cell, xs: seq<real>, ys: seq<real>,
                           kept: seq<seq<Point>>, o: Origin, more: seq<seq<Point>>, o': Origin, radius: nat, tried: nat)
    requires IsPlace(o.base, Place(radius, tried + 1)) && kept <= more && o'.base == o.base && InOrder(o.places)
    requires PlacesTried(o.places, radius, tried)
    requires if more == kept then o'.places == o.places
             else |more| == |kept| + 1 && o'.places == o.places + [Place(radius, tried + 1)]
    requires AllRepresented(free, diagonal, start, goal, xs, ys, kept, o, radius, tried)
    requires more == kept ==> Represented(free, diagonal, start, goal, xs, ys, kept, CutAt(o.base, Place(radius, tried + 1)))
    ensures AllRepresented(free, diagonal, start, goal, xs, ys, more, o', radius, tried + 1)
  {
    hide Represented, IsPlace, CutAt;
    var at := Place(radius, tried + 1);
    forall p: Place, n: nat {:trigger Falls(o'.places, p, n)}
      | IsPlace(o.base, p) && Tried(p, radius, tried + 1) && Falls(o'.places, p, n)
      ensures Represented(free, diagonal, start, goal, xs, ys, more[..n + 1], CutAt(o.base, p))
    {
      FallsBefore(o.places, o'.places, at, p, n, radius, tried);
      if Tried(p, radius, tried) {
        assert more[..n + 1] == kept[..n + 1];
      } else {
        assert kept[..|kept|] == kept;
      }
    }
  }

  lemma FallsBefore(places: seq<Place>, more: seq<Place>, at: Place, p: Place, n: nat, radius: nat, tried: nat)
    requires at == Place(radius, tried + 1) && PlacesTried(places, radius, tried) && InOrder(places)
    requires more == places || more == places + [at]
    requires Tried(p, radius, tried + 1) && Falls(more, p, n)
    ensures Tried(p, radius, tried) ==> Falls(places, p, n)
    ensures !Tried(p, radius, tried) ==> p == at && more == places && n == |places|
  {
    if more != places {
      assert more[|places|] == at;
      assert forall i :: 0 <= i < |places| ==> more[i] == places[i];
    }
  }

  /** After the last cell of a radius all its places have been tried. */
  lemma RadiusDone(free: set<Cell>, diagonal: real, start: Cell, goal: Cell, xs: seq<real>, ys: seq<real>,
                   kept: seq<seq<Point>>, o: Origin, radius: nat)
    requires radius < |CUT_RADII_M|
    requires AllRepresented(free, diagonal, start, goal, xs, ys, kept, o, radius, |CutCells(o.base)|)
    ensures AllRepresented(free, diagonal, start, goal, xs, ys, kept, o, radius + 1, 0)
  {
    hide Represented, CutCells;
    forall p: Place {:trigger IsPlace(o.base, p)} | IsPlace(o.base, p) && Tried(p, radius + 1, 0)
      ensures Tried(p, radius, |CutCells(o.base)|)
    {
      if p.radius == radius {
        CutCellsArePlaces(o.base, radius, p.k - 1);
        assert p == Place(radius, p.k - 1 + 1);
      }
    }
  }

  ghost predicate PlacesTried(places: seq<Place>, radius: nat, tried: nat) {
    forall i :: 0 <= i < |places| ==> Tried(places[i], radius, tried)
  }

  /**
   Of all cuts if the menu is not full, and of those before the last one kept if it is:
   each is on the menu or was left out because of the routes of the cuts before it.
   */
  ghost predicate NothingLeftOut(free: set<Cell>, diagonal: real, start: Cell, goal: Cell, xs: seq<real>, ys: seq<real>,
                                 kept: seq<seq<Point>>, o: Origin)
  {
    && |kept| == |o.places| + 1
    && forall p: Place, n: nat {:trigger Falls(o.places, p, n)} ::
         IsPlace(o.base, p) && Falls(o.places, p, n) && (|kept| < MAX_ROUTES || n < |o.places|) ==>
           Represented(free, diagonal, start, goal, xs, ys, kept[..n + 1], CutAt(o.base, p))
  }

  lemma TriedUpToTheLast(free: set<Cell>, diagonal: real, start: Cell, goal: Cell, xs: seq<real>, ys: seq<real>,
                         kept: seq<seq<Point>>, o: Origin, radius: nat, tried: nat)
    requires AllRepresented(free, diagonal, start, goal, xs, ys, kept, o, radius, tried) && InOrder(o.places)
    requires PlacesTried(o.places, radius, tried) && (|kept| >= MAX_ROUTES || radius == |CUT_RADII_M|)
    ensures NothingLeftOut(free, diagonal, start, goal, xs, ys, kept, o)
  {
    hide Represented;
  }

  lemma MenuInOrder(free: set<Cell>, diagonal: real, start: Cell, goal: Cell, xs: seq<real>, ys: seq<real>,
                    kept: seq<seq<Point>>, o: Origin)
    requires IsMenu(free, diagonal, start, goal, xs, ys, kept, o)
    ensures InOrder(o.places)
  {
  }

  /**
   Shortest path, then one deviation per cut, smallest radius first, while the menu
   has fewer than MAX_ROUTES members.
   */
  method Menu(mask: array2<bool>, start: Cell, goal: Cell, xs: seq<real>, ys: seq<real>, diagonal: real)
    returns (kept: seq<seq<Point>>, ghost o: Origin)
    requires InBounds(mask, start) && InBounds(mask, goal) && diagonal > 0.0
    requires |ys| == mask.Length0 && |xs| == mask.Length1
    ensures kept == [] <==> !exists p :: IsPath(TrueCells(mask), start, goal, p)
    ensures |kept| <= MAX_ROUTES
    ensures kept != [] ==> IsMenu(TrueCells(mask), diagonal, start, goal, xs, ys, kept, o)
    ensures kept != [] ==> NothingLeftOut(TrueCells(mask), diagonal, start, goal, xs, ys, kept, o)
  {
    hide IsMenu, Represented, AllRepresented, NothingLeftOut, TrueCells, Shortest, FirstChoice, CutCells, IsPath, IsPlace, CutAt;
    hide InOrder;
    ghost var free := TrueCells(mask);
    ghost var expanded;
    var base;
    base, expanded := ShortestPath(mask, start, goal, diagonal);
    o := Origin([], [], []);
    if base.None? {
      return [], o;
    }
    BaseIsPath(free, diagonal, start, goal, base.value);
    PathOnGrid(mask, start, goal, base.value);
    BaseMenu(free, diagonal, start, goal, xs, ys, base.value);
    kept, o := [ToXY(xs, ys, base.value)], Origin(base.value, [], []);
    NothingTried(free, diagonal, start, goal, xs, ys, kept, o);
    var cells := CutCells(base.value);
    for a := 0 to |CUT_RADII_M|
      invariant 0 < |kept| <= MAX_ROUTES && o.base == base.value && TrueCells(mask) == free
      invariant IsMenu(free, diagonal, start, goal, xs, ys, kept, o) && PlacesTried(o.places, a, 0)
      invariant AllRepresented(free, diagonal, start, goal, xs, ys, kept, o, a, 0)
    {
      for b := 0 to |cells|
        invariant 0 < |kept| <= MAX_ROUTES && o.base == base.value && TrueCells(mask) == free
        invariant IsMenu(free, diagonal, start, goal, xs, ys, kept, o) && PlacesTried(o.places, a, b)
        invariant AllRepresented(free, diagonal, start, goal, xs, ys, kept, o, a, b)
      {
        MenuInOrder(free, diagonal, start, goal, xs, ys, kept, o);
        if |kept| >= MAX_ROUTES {
          TriedUpToTheLast(free, diagonal, start, goal, xs, ys, kept, o, a, b);
          return;
        }
        ghost var at := Place(a, b + 1);
        CutCellsArePlaces(base.value, a, b);
        assert CutAt(base.value, at) == Cut(cells[b], CUT_RADII_M[a]) by { CutOfCell(base.value, at); }
        var more;
        ghost var o';
        more, o' := TryCut(mask, start, goal, xs, ys, diagonal, Cut(cells[b], CUT_RADII_M[a]), kept, o, at);
        OneMoreRepresented(free, diagonal, start, goal, xs, ys, kept, o, more, o', a, b);
        kept, o := more, o';
      }
      RadiusDone(free, diagonal, start, goal, xs, ys, kept, o, a);
    }
    MenuInOrder(free, diagonal, start, goal, xs, ys, kept, o);
    TriedUpToTheLast(free, diagonal, start, goal, xs, ys, kept, o, |CUT_RADII_M|, 0);
  }

  lemma CutOfCell(base: seq<Cell>, p: Place)
    requires IsPlace(base, p)
    ensures CutAt(base, p) == Cut(CutAt(base, p).cell, CUT_RADII_M[p.radius])
  {
  }

  lemma NothingTried(free: set<Cell>, diagonal: real, start: Cell, goal: Cell, xs: seq<real>, ys: seq<real>,
                     kept: seq<seq<Point>>, o: Origin)
    requires |kept| == 1 && o.places == []
    ensures AllRepresented(free, diagonal, start, goal, xs, ys, kept, o, 0, 0)
  {
    hide Represented;
  }

  // ---------------------------------------------------------------- the mask leaves no choice

  lemma RoutesAreOne(free: set<Cell>, diagonal: real, start: Cell, goal: Cell, p: seq<Cell>, q: seq<Cell>)
    requires diagonal > 0.0 && IsRoute(free, diagonal, start, goal, p) && IsRoute(free, diagonal, start, goal, q)
    ensures p == q
  {
    hide Shortest, FirstChoice;
    if |p| <= |q| {
      ShortestPathIsDetermined(free, diagonal, start, goal, p, q);
    } else {
      ShortestPathIsDetermined(free, diagonal, start, goal, q, p);
    }
  }

  /** Two menus agree on their first n alternatives. */
  ghost predicate SameUpTo(a: Origin, b: Origin, n: nat) {
    && n <= |a.places| && n <= |b.places| && |a.alternatives| == |a.places| && |b.alternatives| == |b.places|
    && a.base == b.base && a.places[..n] == b.places[..n] && a.alternatives[..n] == b.alternatives[..n]
  }

  lemma SameEntries(free: set<Cell>, diagonal: real, start: Cell, goal: Cell, xs: seq<real>, ys: seq<real>,
                    kept: seq<seq<Point>>, a: Origin, others: seq<seq<Point>>, b: Origin, n: nat)
    requires IsMenu(free, diagonal, start, goal, xs, ys, kept, a) && IsMenu(free, diagonal, start, goal, xs, ys, others, b)
    requires SameUpTo(a, b, n)
    ensures |kept| > n && |others| > n && kept[..n + 1] == others[..n + 1]
  {
    hide IsRoute, HausdorffSq, FarFromAll, TrialFree;
    forall i | 0 <= i < n + 1
      ensures kept[i] == others[i]
    {
      if i > 0 {
        assert a.alternatives[..n][i - 1] == b.alternatives[..n][i - 1];
      }
      assert a.Route(i) == b.Route(i);
    }
  }

  /** No menu has a cut that another, which agrees with it before, passed over. */
  lemma NoneWasPassedOver(free: set<Cell>, diagonal: real, start: Cell, goal: Cell, xs: seq<real>, ys: seq<real>,
                          kept: seq<seq<Point>>, a: Origin, others: seq<seq<Point>>, b: Origin, n: nat)
    requires diagonal > 0.0
    requires IsMenu(free, diagonal, start, goal, xs, ys, kept, a) && IsMenu(free, diagonal, start, goal, xs, ys, others, b)
    requires NothingLeftOut(free, diagonal, start, goal, xs, ys, others, b)
    requires SameUpTo(a, b, n) && n < |a.places| && (|others| < MAX_ROUTES || n < |b.places|)
    ensures n < |b.places| && !Precedes(a.places[n], b.places[n])
  {
    var p := a.places[n];
    SameEntries(free, diagonal, start, goal, xs, ys, kept, a, others, b, n);
    NotRepresented(free, diagonal, start, goal, xs, ys, kept, a, n);
    MenuInOrder(free, diagonal, start, goal, xs, ys, kept, a);
    PlaceOfEntry(free, diagonal, start, goal, xs, ys, kept, a, n);
    hide IsMenu, Represented, IsPlace, CutAt;
    if n == |b.places| || Precedes(p, b.places[n]) {
      FallsThere(a.places, b.places, n);
    }
  }

  lemma PlaceOfEntry(free: set<Cell>, diagonal: real, start: Cell, goal: Cell, xs: seq<real>, ys: seq<real>,
                     kept: seq<seq<Point>>, o: Origin, n: nat)
    requires IsMenu(free, diagonal, start, goal, xs, ys, kept, o) && n < |o.places|
    ensures IsPlace(o.base, o.places[n])
  {
    hide IsPlace;
  }

  lemma FallsThere(places: seq<Place>, others: seq<Place>, n: nat)
    requires n < |places| && n <= |others| && places[..n] == others[..n] && InOrder(places)
    requires n == |others| || Precedes(places[n], others[n])
    ensures Falls(others, places[n], n)
  {
    assert forall i :: 0 <= i < n ==> others[..n][i] == places[..n][i];
  }

  lemma NotRepresented(free: set<Cell>, diagonal: real, start: Cell, goal: Cell, xs: seq<real>, ys: seq<real>,
                       kept: seq<seq<Point>>, o: Origin, n: nat)
    requires diagonal > 0.0 && IsMenu(free, diagonal, start, goal, xs, ys, kept, o) && n < |o.places|
    ensures !Represented(free, diagonal, start, goal, xs, ys, kept[..n + 1], CutAt(o.base, o.places[n]))
  {
    var trial := TrialFree(free, start, goal, CutAt(o.base, o.places[n]));
    hide TrialFree, HausdorffSq, FirstChoice, IsPlace;
    assert IsRoute(trial, diagonal, start, goal, o.alternatives[n]);
    assert IsPath(trial, start, goal, o.alternatives[n]);
    assert o.Route(n + 1) == o.alternatives[n] && FarFromAll(kept[n + 1], kept[..n + 1]);
    hide Shortest, FarFromAll;
    forall p | IsRoute(trial, diagonal, start, goal, p)
      ensures p == o.alternatives[n]
    {
      RoutesAreOne(trial, diagonal, start, goal, p, o.alternatives[n]);
    }
  }

  /** So the menu is determined by the mask: whatever two runs do, they end with one menu. */
  lemma {:induction false} MenusAgree(free: set<Cell>, diagonal: real, start: Cell, goal: Cell, xs: seq<real>, ys: seq<real>,
                                      kept: seq<seq<Point>>, a: Origin, others: seq<seq<Point>>, b: Origin, n: nat)
    requires diagonal > 0.0 && |kept| <= MAX_ROUTES && |others| <= MAX_ROUTES
    requires IsMenu(free, diagonal, start, goal, xs, ys, kept, a) && NothingLeftOut(free, diagonal, start, goal, xs, ys, kept, a)
    requires IsMenu(free, diagonal, start, goal, xs, ys, others, b) && NothingLeftOut(free, diagonal, start, goal, xs, ys, others, b)
    requires SameUpTo(a, b, n)
    ensures kept == others && a == b
    decreases |a.places| - n
  {
    hide FarFromAll, NothingLeftOut, IsRoute, TrialFree, IsPlace, CutAt;
    if n < |a.places| {
      NoneWasPassedOver(free, diagonal, start, goal, xs, ys, kept, a, others, b, n);
      NoneWasPassedOver(free, diagonal, start, goal, xs, ys, others, b, kept, a, n);
      assert a.places[n] == b.places[n];
      RoutesAreOne(TrialFree(free, start, goal, CutAt(a.base, a.places[n])), diagonal, start, goal, a.alternatives[n], b.alternatives[n]);
      assert a.places[..n + 1] == b.places[..n + 1] && a.alternatives[..n + 1] == b.alternatives[..n + 1];
      MenusAgree(free, diagonal, start, goal, xs, ys, kept, a, others, b, n + 1);
    } else if n < |b.places| {
      NoneWasPassedOver(free, diagonal, start, goal, xs, ys, others, b, kept, a, n);
    } else {
      SameEntries(free, diagonal, start, goal, xs, ys, kept, a, others, b, n);
      assert kept[..n + 1] == kept && others[..n + 1] == others;
      assert a.places[..n] == a.places && b.places[..n] == b.places;
      assert a.alternatives[..n] == a.alternatives && b.alternatives[..n] == b.alternatives;
    }
  }

  lemma MenuIsDetermined(free: set<Cell>, diagonal: real, start: Cell, goal: Cell, xs: seq<real>, ys: seq<real>,
                         kept: seq<seq<Point>>, a: Origin, others: seq<seq<Point>>, b: Origin)
    requires diagonal > 0.0 && |kept| <= MAX_ROUTES && |others| <= MAX_ROUTES
    requires IsMenu(free, diagonal, start, goal, xs, ys, kept, a) && NothingLeftOut(free, diagonal, start, goal, xs, ys, kept, a)
    requires IsMenu(free, diagonal, start, goal, xs, ys, others, b) && NothingLeftOut(free, diagonal, start, goal, xs, ys, others, b)
    ensures kept == others
  {
    RoutesAreOne(free, diagonal, start, goal, a.base, b.base);
    hide FarFromAll, NothingLeftOut, IsRoute, TrialFree, IsPlace, CutAt;
    assert a.places[..0] == b.places[..0] && a.alternatives[..0] == b.alternatives[..0];
    MenusAgree(free, diagonal, start, goal, xs, ys, kept, a, others, b, 0);
  }
}
