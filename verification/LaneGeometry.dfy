/**
 What the lanes mean: the floor they declare, and the boxes the two passes may
 keep.  Everything here is on values; Lanes holds the loops.
 */
module LaneGeometry {
  import opened Grid
  import opened Masks

  /** A named axis-aligned strip of floor; `number` is the figure in its name. */
  datatype Lane = Lane(number: int, xmin: real, xmax: real, ymin: real, ymax: real) {
    predicate Contains(x: real, y: real) {
      xmin <= x <= xmax && ymin <= y <= ymax
    }
  }

  const CELL := 0.10
  const MIN_LANE_CELLS := 6          // 0.55 m in cells, rounded up
  const LANE_TARGET := 0.995
  const MIN_LANE_AREA_M2 := 0.30
  const MIN_PATCH_GAIN_M2 := 0.50
  const MIN_PATCH_CELLS := 50        // MIN_PATCH_GAIN_M2 / CELL^2

  /** Cell centres along one axis, as the grid lays them out. */
  ghost predicate Increasing(xs: seq<real>) {
    forall i, j :: 0 <= i < j < |xs| ==> xs[i] < xs[j]
  }

  function LaneOf(b: Rect, number: int, xs: seq<real>, ys: seq<real>): Lane
    requires b.Within(|ys|, |xs|)
  {
    Lane(number, xs[b.c0], xs[b.c1], ys[b.r0], ys[b.r1])
  }

  /** Wide enough to drive and large enough to be worth a lane. */
  predicate Worthwhile(b: Rect, xs: seq<real>, ys: seq<real>)
    requires b.Within(|ys|, |xs|)
  {
    && b.Height() >= MIN_LANE_CELLS && b.Width() >= MIN_LANE_CELLS
    && (xs[b.c1] - xs[b.c0]) * (ys[b.r1] - ys[b.r0]) >= MIN_LANE_AREA_M2
  }

  predicate TargetMet(covered: nat, reachable: nat) {
    covered as real >= LANE_TARGET * (reachable as real)
  }

  /** The grid cells whose centres lie in the lane, edges included. */
  ghost function LaneCells(l: Lane, xs: seq<real>, ys: seq<real>): set<Cell> {
    set r, c | 0 <= r < |ys| && 0 <= c < |xs| && l.Contains(xs[c], ys[r]) :: Cell(r, c)
  }

  /** The floor a list of lanes declares on the grid. */
  ghost function Raster(lanes: seq<Lane>, xs: seq<real>, ys: seq<real>): set<Cell> {
    if lanes == [] then {} else
      Raster(lanes[..|lanes| - 1], xs, ys) + LaneCells(lanes[|lanes| - 1], xs, ys)
  }

  /** The rectangles a pass has taken, latest last, and whether each became a lane. */
  datatype Log = Empty | Taken(before: Log, box: Rect, kept: bool) {
    function Length(): nat {
      if Empty? then 0 else before.Length() + 1
    }

    ghost predicate Within(rows: int, cols: int) {
      Taken? ==> before.Within(rows, cols) && box.Within(rows, cols)
    }

    /** The cells of all the rectangles taken. */
    ghost function Union(): set<Cell> {
      if Empty? then {} else before.Union() + box.Cells()
    }

    /** The cells covered once the kept rectangles have been added to `base`. */
    ghost function Cover(base: set<Cell>): set<Cell> {
      if Empty? then base else
        if kept then before.Cover(base) + box.Cells() else before.Cover(base)
    }

    /** The log as it stood after its first `k` rectangles. */
    ghost function After(k: nat): Log
      requires k <= Length()
    {
      if k == Length() then this else before.After(k)
    }
  }

  lemma {:induction false} CoverBounds(log: Log, base: set<Cell>)
    ensures base <= log.Cover(base) <= base + log.Union()
  {
    if log.Taken? {
      CoverBounds(log.before, base);
    }
  }

  lemma {:induction false} UnionOfPrefix(log: Log, k: nat)
    requires k <= log.Length()
    ensures log.After(k).Union() <= log.Union()
  {
    if k < log.Length() {
      UnionOfPrefix(log.before, k);
    }
  }

  /** Rectangle k of the log: the last one after k + 1 rectangles. */
  ghost function Box(log: Log, k: nat): Rect
    requires k < log.Length()
  {
    if k == log.Length() - 1 then log.box else Box(log.before, k)
  }

  /** With increasing cell centres a lane declares exactly the cells of the box it came from. */
  lemma LaneCoversItsBox(b: Rect, number: int, xs: seq<real>, ys: seq<real>, r: int, c: int)
    requires b.Within(|ys|, |xs|) && Increasing(xs) && Increasing(ys)
    requires 0 <= r < |ys| && 0 <= c < |xs|
    ensures LaneOf(b, number, xs, ys).Contains(xs[c], ys[r]) <==> b.Has(Cell(r, c))
  {
    assert xs[b.c0] <= xs[c] <==> b.c0 <= c;
    assert xs[c] <= xs[b.c1] <==> c <= b.c1;
    assert ys[b.r0] <= ys[r] <==> b.r0 <= r;
    assert ys[r] <= ys[b.r1] <==> r <= b.r1;
  }

  /** Adding the lane of one more box adds exactly the cells of that box. */
  lemma RasterAppend(lanes: seq<Lane>, b: Rect, number: int, xs: seq<real>, ys: seq<real>)
    requires b.Within(|ys|, |xs|) && Increasing(xs) && Increasing(ys)
    ensures Raster(lanes + [LaneOf(b, number, xs, ys)], xs, ys) == Raster(lanes, xs, ys) + b.Cells()
  {
    var lane := LaneOf(b, number, xs, ys);
    assert (lanes + [lane])[..|lanes|] == lanes;
    forall p
      ensures p in LaneCells(lane, xs, ys) <==> p in b.Cells()
    {
      if 0 <= p.r < |ys| && 0 <= p.c < |xs| {
        LaneCoversItsBox(b, number, xs, ys, p.r, p.c);
        assert p == Cell(p.r, p.c);
      }
    }
    assert LaneCells(lane, xs, ys) == b.Cells();
  }

  lemma RasterAppendAfter(lanes: seq<Lane>, more: seq<Lane>, b: Rect, number: int, xs: seq<real>, ys: seq<real>)
    requires b.Within(|ys|, |xs|) && Increasing(xs) && Increasing(ys)
    ensures Raster(lanes + (more + [LaneOf(b, number, xs, ys)]), xs, ys)
         == Raster(lanes + more, xs, ys) + b.Cells()
  {
    RasterAppend(lanes + more, b, number, xs, ys);
    assert lanes + (more + [LaneOf(b, number, xs, ys)]) == (lanes + more) + [LaneOf(b, number, xs, ys)];
  }

  // ---------------------------------------------------------------- greedy pass

  /** The last rectangle became a lane and that lane met the coverage target. */
  ghost predicate GreedyStops(free: set<Cell>, log: Log) {
    log.Taken? && log.kept && TargetMet(|log.Cover({})|, |free|)
  }

  /**
   The rounds of the greedy pass: each takes the first largest free rectangle of what the
   earlier ones left, makes a lane of it exactly when it is worth one, and no round
   follows one that met the target.
   */
  ghost predicate GreedyRun(free: set<Cell>, log: Log, xs: seq<real>, ys: seq<real>) {
    log.Taken? ==>
      && GreedyRun(free, log.before, xs, ys)
      && !GreedyStops(free, log.before)
      && IsLargest(free - log.before.Union(), |ys|, |xs|, log.box)
      && ComesFirst(free - log.before.Union(), |ys|, |xs|, log.box)
      && (log.kept <==> Worthwhile(log.box, xs, ys))
  }

  /** The lanes of the kept rectangles, numbered by the round that found them. */
  ghost function RoundLanes(log: Log, xs: seq<real>, ys: seq<real>): seq<Lane>
    requires log.Within(|ys|, |xs|)
  {
    if log.Empty? then [] else
      var lanes := RoundLanes(log.before, xs, ys);
      if log.kept then lanes + [LaneOf(log.box, log.Length(), xs, ys)] else lanes
  }

  /** The rectangles of the greedy pass lie inside the free floor. */
  lemma {:induction false} GreedyBoxesAreFree(free: set<Cell>, log: Log, xs: seq<real>, ys: seq<real>)
    requires GreedyRun(free, log, xs, ys)
    ensures log.Within(|ys|, |xs|) && log.Union() <= free
  {
    if log.Taken? {
      GreedyBoxesAreFree(free, log.before, xs, ys);
    }
  }

  /** Round k took a largest rectangle of what the rounds before it had left. */
  lemma {:induction false} GreedyRoundTakesLargest(free: set<Cell>, log: Log, xs: seq<real>, ys: seq<real>, k: nat)
    requires GreedyRun(free, log, xs, ys) && k < log.Length()
    ensures IsLargest(free - log.After(k).Union(), |ys|, |xs|, Box(log, k))
    ensures ComesFirst(free - log.After(k).Union(), |ys|, |xs|, Box(log, k))
    ensures Box(log, k).Cells() <= log.After(k + 1).Union()
  {
    hide ComesFirst;
    if k < log.Length() - 1 {
      GreedyRoundTakesLargest(free, log.before, xs, ys, k);
    }
  }

  /** The rectangles are pairwise disjoint. */
  lemma GreedyBoxesAreDisjoint(free: set<Cell>, log: Log, xs: seq<real>, ys: seq<real>, i: nat, j: nat)
    requires GreedyRun(free, log, xs, ys) && i < j < log.Length()
    ensures Box(log, i).Cells() !! Box(log, j).Cells()
  {
    hide GreedyRun, ComesFirst, Worthwhile;
    GreedyRoundTakesLargest(free, log, xs, ys, i);
    GreedyRoundTakesLargest(free, log, xs, ys, j);
    AfterAfter(log, i + 1, j);
    UnionOfPrefix(log.After(j), i + 1);
  }

  lemma {:induction false} AfterAfter(log: Log, i: nat, j: nat)
    requires i <= j <= log.Length()
    ensures log.After(j).Length() == j && log.After(j).After(i) == log.After(i)
  {
    if j < log.Length() {
      AfterAfter(log.before, i, j);
    }
  }

  /** Their areas never increase: a later rectangle was already free when the earlier one was chosen. */
  lemma GreedyAreasDoNotIncrease(free: set<Cell>, log: Log, xs: seq<real>, ys: seq<real>, i: nat, j: nat)
    requires GreedyRun(free, log, xs, ys) && i <= j < log.Length()
    ensures Box(log, j).Area() <= Box(log, i).Area()
  {
    GreedyRoundTakesLargest(free, log, xs, ys, i);
    GreedyRoundTakesLargest(free, log, xs, ys, j);
    AfterAfter(log, i, j);
    UnionOfPrefix(log.After(j), i);
    assert FreeRect(free - log.After(i).Union(), |ys|, |xs|, Box(log, j));
  }

  /** Rasterising the first-pass lanes declares exactly the cells of the kept rectangles. */
  lemma {:induction false} RoundRaster(log: Log, xs: seq<real>, ys: seq<real>)
    requires log.Within(|ys|, |xs|) && Increasing(xs) && Increasing(ys)
    ensures Raster(RoundLanes(log, xs, ys), xs, ys) == log.Cover({})
  {
    if log.Taken? {
      RoundRaster(log.before, xs, ys);
      RasterAppend(RoundLanes(log.before, xs, ys), log.box, log.Length(), xs, ys);
    }
  }

  /** First-pass lane numbers increase and never exceed the number of rounds. */
  lemma {:induction false} RoundNumbersIncrease(log: Log, xs: seq<real>, ys: seq<real>, i: int, j: int)
    requires log.Within(|ys|, |xs|)
    requires -1 <= i < j < |RoundLanes(log, xs, ys)|
    ensures (if i < 0 then 0 else RoundLanes(log, xs, ys)[i].number)
          < RoundLanes(log, xs, ys)[j].number <= log.Length()
  {
    if j < |RoundLanes(log.before, xs, ys)| {
      RoundNumbersIncrease(log.before, xs, ys, i, j);
    } else if i >= 0 {
      RoundNumbersIncrease(log.before, xs, ys, -1, i);
    }
  }

  // ---------------------------------------------------------------- what is worth a lane

  ghost predicate EvenCells(xs: seq<real>) {
    forall i, j :: 0 <= i < |xs| && 0 <= j < |xs| ==> xs[j] - xs[i] == CELL * (j - i) as real
  }

  lemma AreaInCells(w: int, h: int, x: real, y: real)
    requires x == CELL * w as real && y == CELL * h as real
    ensures x * y == CELL * CELL * (w * h) as real
  {
    assert (w * h) as real == w as real * h as real;
    assert x * y == CELL * w as real * (CELL * h as real);
  }

  /** On evenly spaced cells: six cells on each side, and thirty square cells between the corner centres. */
  lemma WorthwhileInCells(b: Rect, xs: seq<real>, ys: seq<real>)
    requires b.Within(|ys|, |xs|) && EvenCells(xs) && EvenCells(ys)
    ensures Worthwhile(b, xs, ys) <==>
              b.r1 - b.r0 >= 5 && b.c1 - b.c0 >= 5 && (b.c1 - b.c0) * (b.r1 - b.r0) >= 30
  {
    AreaInCells(b.c1 - b.c0, b.r1 - b.r0, xs[b.c1] - xs[b.c0], ys[b.r1] - ys[b.r0]);
  }

  lemma TargetInCells(covered: nat, reachable: nat)
    ensures TargetMet(covered, reachable) <==> 1000 * covered >= 995 * reachable
  {
  }

  /** Whether attempt or round k became a lane. */
  ghost predicate BecameALane(log: Log, k: nat)
    requires k < log.Length()
  {
    if k == log.Length() - 1 then log.kept else BecameALane(log.before, k)
  }

  /** Round k became a lane exactly if its rectangle is large enough, and no round came after the target was met. */
  lemma {:induction false} RoundsKeptInCells(free: set<Cell>, log: Log, xs: seq<real>, ys: seq<real>, k: nat)
    requires GreedyRun(free, log, xs, ys) && k < log.Length() && EvenCells(xs) && EvenCells(ys)
    ensures var b := Box(log, k);
            BecameALane(log, k) <==> b.r1 - b.r0 >= 5 && b.c1 - b.c0 >= 5 && (b.c1 - b.c0) * (b.r1 - b.r0) >= 30
    ensures k > 0 && BecameALane(log, k - 1) ==> 1000 * |log.After(k).Cover({})| < 995 * |free|
  {
    hide IsLargest, ComesFirst, Worthwhile, TargetMet, EvenCells;
    if k < log.Length() - 1 {
      RoundsKeptInCells(free, log.before, xs, ys, k);
    } else {
      RectOfRound(free, log, xs, ys);
      WorthwhileInCells(log.box, xs, ys);
      TargetInCells(|log.before.Cover({})|, |free|);
      assert log.After(k) == log.before;
      if k > 0 {
        assert BecameALane(log, k - 1) == BecameALane(log.before, k - 1) == log.before.kept;
      }
    }
  }

  lemma RectOfRound(free: set<Cell>, log: Log, xs: seq<real>, ys: seq<real>)
    requires GreedyRun(free, log, xs, ys) && log.Taken?
    ensures log.box.Within(|ys|, |xs|)
  {
  }

  lemma MaximalIsWithin(free: set<Cell>, rows: int, cols: int, b: Rect)
    requires Maximal(free, rows, cols, b)
    ensures b.Within(rows, cols)
  {
  }

  /** Attempt k became a patch exactly if its rectangle is large enough and brings fifty cells that no lane covers yet. */
  lemma {:induction false} AttemptsKeptInCells(
    free: set<Cell>, base: set<Cell>, log: Log, xs: seq<real>, ys: seq<real>, k: nat)
    requires PatchRun(free, base, log, xs, ys) && k < log.Length() && EvenCells(xs) && EvenCells(ys)
    ensures var b := Box(log, k);
            BecameALane(log, k) <==>
              && b.r1 - b.r0 >= 5 && b.c1 - b.c0 >= 5 && (b.c1 - b.c0) * (b.r1 - b.r0) >= 30
              && |b.Cells() * free - log.After(k).Cover(base)| >= 50
  {
    hide Maximal, GrownFromFirst, ContainsFirst, Worthwhile, EvenCells;
    if k < log.Length() - 1 {
      AttemptsKeptInCells(free, base, log.before, xs, ys, k);
    } else {
      MaximalIsWithin(free, |ys|, |xs|, log.box);
      WorthwhileInCells(log.box, xs, ys);
      assert log.After(k) == log.before;
    }
  }

  // ---------------------------------------------------------------- patch pass

  /** A free rectangle that no free rectangle properly contains. */
  ghost predicate Maximal(free: set<Cell>, rows: int, cols: int, b: Rect) {
    && FreeRect(free, rows, cols, b)
    && forall o: Rect :: FreeRect(free, rows, cols, o) && o.Encloses(b) ==> o == b
  }

  /** The gain test in square metres is the test in cells. */
  lemma GainInCells(n: nat)
    ensures n as real * CELL * CELL < MIN_PATCH_GAIN_M2 <==> n < MIN_PATCH_CELLS
  {
  }

  /** A patch must declare at least MIN_PATCH_GAIN_M2 of floor that no lane covers yet. */
  ghost predicate PatchEarned(b: Rect, free: set<Cell>, covered: set<Cell>, xs: seq<real>, ys: seq<real>)
    requires b.Within(|ys|, |xs|)
  {
    && Worthwhile(b, xs, ys)
    && |b.Cells() * free - covered| >= MIN_PATCH_CELLS
  }

  /** The rectangle that the first of the cells still to be treated grows into. */
  ghost predicate GrownFromFirst(free: set<Cell>, todo: set<Cell>, rows: int, cols: int, b: Rect) {
    exists seed :: IsFirst(todo, seed) && FreeRect(free, rows, cols, CellRect(seed))
                   && b == GrowsTo(free, rows, cols, CellRect(seed))
  }

  /** `b` contains the first cell, in row-major order, of those still to be treated. */
  ghost predicate ContainsFirst(todo: set<Cell>, b: Rect) {
    exists seed :: IsFirst(todo, seed) && b.Has(seed)
  }

  /**
   The attempts of the patch pass: each grows the first cell still to be treated, which
   ends with a maximal free rectangle, and is kept exactly when that rectangle has earned
   its place against what was covered before it.
   */
  ghost predicate PatchRun(free: set<Cell>, base: set<Cell>, log: Log, xs: seq<real>, ys: seq<real>) {
    log.Taken? ==>
      && PatchRun(free, base, log.before, xs, ys)
      && ContainsFirst(free - base - log.before.Union(), log.box)
      && GrownFromFirst(free, free - base - log.before.Union(), |ys|, |xs|, log.box)
      && Maximal(free, |ys|, |xs|, log.box)
      && (log.kept <==> PatchEarned(log.box, free, log.before.Cover(base), xs, ys))
  }

  /** The patch lanes of the kept attempts, numbered on from `start`. */
  ghost function PatchLanesOf(log: Log, start: int, xs: seq<real>, ys: seq<real>): seq<Lane>
    requires log.Within(|ys|, |xs|)
  {
    if log.Empty? then [] else
      var lanes := PatchLanesOf(log.before, start, xs, ys);
      if log.kept then lanes + [LaneOf(log.box, start + |lanes| + 1, xs, ys)] else lanes
  }

  lemma {:induction false} PatchBoxesAreFree(free: set<Cell>, base: set<Cell>, log: Log, xs: seq<real>, ys: seq<real>)
    requires PatchRun(free, base, log, xs, ys)
    ensures log.Within(|ys|, |xs|) && log.Union() <= free
  {
    if log.Taken? {
      PatchBoxesAreFree(free, base, log.before, xs, ys);
    }
  }

  lemma FirstIsUncovered(free: set<Cell>, base: set<Cell>, union: set<Cell>, cover: set<Cell>, b: Rect)
    requires ContainsFirst(free - base - union, b) && cover <= base + union
    ensures exists seed :: b.Has(seed) && seed in free && seed !in cover
  {
    var seed :| IsFirst(free - base - union, seed) && b.Has(seed);
  }

  /**
   Attempt k grew from a reachable cell that no lane covered at that moment into a
   free rectangle around it that nothing free properly contains.
   */
  lemma {:induction false} PatchAttempt(free: set<Cell>, base: set<Cell>, log: Log, xs: seq<real>, ys: seq<real>, k: nat)
    requires PatchRun(free, base, log, xs, ys) && k < log.Length()
    ensures exists seed :: Box(log, k).Has(seed) && seed in free && seed !in log.After(k).Cover(base)
    ensures Maximal(free, |ys|, |xs|, Box(log, k))
  {
    if k < log.Length() - 1 {
      PatchAttempt(free, base, log.before, xs, ys, k);
    } else {
      CoverBounds(log.before, base);
      assert log.After(k) == log.before && Box(log, k) == log.box;
      FirstIsUncovered(free, base, log.before.Union(), log.before.Cover(base), log.box);
    }
  }

  /** Each kept patch adds at least MIN_PATCH_CELLS new cells of free floor. */
  lemma {:induction false} PatchesPayTheirWay(free: set<Cell>, base: set<Cell>, log: Log, start: int,
                                              xs: seq<real>, ys: seq<real>)
    requires PatchRun(free, base, log, xs, ys) && log.Within(|ys|, |xs|)
    ensures |PatchLanesOf(log, start, xs, ys)| * MIN_PATCH_CELLS <= |log.Cover(base)| - |base|
  {
    if log.Taken? {
      PatchesPayTheirWay(free, base, log.before, start, xs, ys);
      if log.kept {
        GainIsCounted(log.box, free, log.before.Cover(base), xs, ys);
      }
    }
  }

  lemma GainIsCounted(b: Rect, free: set<Cell>, before: set<Cell>, xs: seq<real>, ys: seq<real>)
    requires b.Within(|ys|, |xs|) && b.Cells() <= free && PatchEarned(b, free, before, xs, ys)
    ensures |before + b.Cells()| >= |before| + MIN_PATCH_CELLS
  {
    var gained := b.Cells() * free - before;
    assert before + b.Cells() == before + gained;
  }

  /** So the number of patches is bounded by the uncovered floor over the gain each must bring. */
  lemma PatchCountBound(free: set<Cell>, base: set<Cell>, log: Log, start: int, xs: seq<real>, ys: seq<real>)
    requires PatchRun(free, base, log, xs, ys) && log.Within(|ys|, |xs|)
    ensures |PatchLanesOf(log, start, xs, ys)| * MIN_PATCH_CELLS <= |free - base|
  {
    PatchesPayTheirWay(free, base, log, start, xs, ys);
    PatchBoxesAreFree(free, base, log, xs, ys);
    CoverBounds(log, base);
    var after := log.Cover(base);
    assert after == base + (after - base);
    SubsetCard(after - base, free - base);
  }

  lemma SubsetCard(a: set<Cell>, b: set<Cell>)
    requires a <= b
    ensures |a| <= |b|
  {
    assert b == a + (b - a);
  }

  /** A treated cell that stayed uncovered lies in the maximal rectangle of an attempt that earned no patch. */
  lemma {:induction false} TreatedInVain(
    free: set<Cell>, base: set<Cell>, log: Log, xs: seq<real>, ys: seq<real>, p: Cell) returns (k: nat)
    requires PatchRun(free, base, log, xs, ys) && p in log.Union() && p !in log.Cover(base)
    ensures k < log.Length() && Box(log, k).Has(p) && Maximal(free, |ys|, |xs|, Box(log, k))
    ensures !PatchEarned(Box(log, k), free, log.After(k).Cover(base), xs, ys)
  {
    hide PatchEarned, ContainsFirst;
    if p in log.before.Union() {
      k := TreatedInVain(free, base, log.before, xs, ys, p);
    } else {
      k := log.Length() - 1;
      assert log.After(k) == log.before && Box(log, k) == log.box;
    }
  }

  lemma {:induction false} CoverOfPrefix(log: Log, base: set<Cell>, k: nat)
    requires k <= log.Length()
    ensures log.After(k).Cover(base) <= log.Cover(base)
  {
    if k < log.Length() {
      CoverOfPrefix(log.before, base, k);
    }
  }

  /** What did not earn a patch earns none once more floor is covered. */
  lemma EarnedOnlyByLess(b: Rect, free: set<Cell>, before: set<Cell>, after: set<Cell>, xs: seq<real>, ys: seq<real>)
    requires b.Within(|ys|, |xs|) && before <= after && PatchEarned(b, free, after, xs, ys)
    ensures PatchEarned(b, free, before, xs, ys)
  {
    SubsetCard(b.Cells() * free - after, b.Cells() * free - before);
  }

  /** A reachable cell that a maximal free rectangle holds which is worth no patch against the covered floor. */
  ghost predicate NotWorthAPatch(free: set<Cell>, covered: set<Cell>, xs: seq<real>, ys: seq<real>, p: Cell) {
    exists b: Rect :: b.Has(p) && Maximal(free, |ys|, |xs|, b) && !PatchEarned(b, free, covered, xs, ys)
  }

  /**
   When every cell has been treated, floor is left undeclared for one reason only: a
   maximal rectangle around it earned no patch when it was tried, and would still earn none.
   */
  lemma UndeclaredFloorIsNotWorthAPatch(
    free: set<Cell>, base: set<Cell>, log: Log, xs: seq<real>, ys: seq<real>, p: Cell)
    requires PatchRun(free, base, log, xs, ys) && free - base <= log.Union()
    requires p in free && p !in log.Cover(base)
    ensures NotWorthAPatch(free, log.Cover(base), xs, ys, p)
  {
    hide PatchEarned;
    CoverBounds(log, base);
    var k := TreatedInVain(free, base, log, xs, ys, p);
    var b := Box(log, k);
    CoverOfPrefix(log, base, k);
    if PatchEarned(b, free, log.Cover(base), xs, ys) {
      EarnedOnlyByLess(b, free, log.After(k).Cover(base), log.Cover(base), xs, ys);
    }
  }

  /** Patch lanes are numbered start+1, start+2, ... without a gap. */
  lemma {:induction false} PatchLanesAreNumberedOn(log: Log, start: int, xs: seq<real>, ys: seq<real>, i: int)
    requires log.Within(|ys|, |xs|)
    requires 0 <= i < |PatchLanesOf(log, start, xs, ys)|
    ensures PatchLanesOf(log, start, xs, ys)[i].number == start + i + 1
  {
    if i < |PatchLanesOf(log.before, start, xs, ys)| {
      PatchLanesAreNumberedOn(log.before, start, xs, ys, i);
    }
  }

  /** The patch lanes, rasterised on top of `lanes`, declare exactly the covered cells. */
  lemma {:induction false} PatchRaster(lanes: seq<Lane>, log: Log, start: int, xs: seq<real>, ys: seq<real>)
    requires log.Within(|ys|, |xs|) && Increasing(xs) && Increasing(ys)
    ensures Raster(lanes + PatchLanesOf(log, start, xs, ys), xs, ys) == log.Cover(Raster(lanes, xs, ys))
  {
    hide LaneOf, Increasing;
    if log.Empty? {
      assert lanes + [] == lanes;
    } else {
      PatchRaster(lanes, log.before, start, xs, ys);
      var patches := PatchLanesOf(log.before, start, xs, ys);
      RasterAppendAfter(lanes, patches, log.box, start + |patches| + 1, xs, ys);
    }
  }

  // ---------------------------------------------------------------- growing a patch

  datatype Side = Up | Down | Left | Right

  /** The rectangle one row or column larger on the given side. */
  function Extend(b: Rect, side: Side): Rect {
    match side
    case Up => b.(r0 := b.r0 - 1)
    case Down => b.(r1 := b.r1 + 1)
    case Left => b.(c0 := b.c0 - 1)
    case Right => b.(c1 := b.c1 + 1)
  }

  function CellRect(p: Cell): Rect { Rect(p.r, p.r, p.c, p.c) }

  /** How far the sides can still move. */
  function Slack(b: Rect, rows: int, cols: int): int {
    b.r0 + (rows - 1 - b.r1) + b.c0 + (cols - 1 - b.c1)
  }

  /** One row or column more on the side if that is free floor. */
  ghost function Moved(free: set<Cell>, rows: int, cols: int, b: Rect, side: Side): (o: Rect)
    ensures FreeRect(free, rows, cols, b) ==>
              FreeRect(free, rows, cols, o) && o.Encloses(b) && (o != b ==> Slack(o, rows, cols) < Slack(b, rows, cols))
  {
    if FreeRect(free, rows, cols, Extend(b, side)) then Extend(b, side) else b
  }

  /** One sweep over up, down, left and right. */
  ghost function Sweep(free: set<Cell>, rows: int, cols: int, b: Rect): (o: Rect)
    ensures FreeRect(free, rows, cols, b) ==>
              FreeRect(free, rows, cols, o) && o.Encloses(b) && (o != b ==> Slack(o, rows, cols) < Slack(b, rows, cols))
  {
    var up := Moved(free, rows, cols, b, Up);
    var down := Moved(free, rows, cols, up, Down);
    var left := Moved(free, rows, cols, down, Left);
    Moved(free, rows, cols, left, Right)
  }

  /** Sweep after sweep until no side moves any more. */
  ghost function GrowsTo(free: set<Cell>, rows: int, cols: int, b: Rect): Rect
    requires FreeRect(free, rows, cols, b)
    decreases Slack(b, rows, cols)
  {
    var grown := Sweep(free, rows, cols, b);
    if grown == b then b else GrowsTo(free, rows, cols, grown)
  }

  lemma SweepStuck(free: set<Cell>, rows: int, cols: int, b: Rect)
    requires FreeRect(free, rows, cols, b) && Sweep(free, rows, cols, b) == b
    ensures Maximal(free, rows, cols, b)
  {
    var up := Moved(free, rows, cols, b, Up);
    var down := Moved(free, rows, cols, up, Down);
    var left := Moved(free, rows, cols, down, Left);
    assert up.Encloses(b) && down.Encloses(up) && left.Encloses(down);
    assert up == b && down == b && left == b;
    forall side
      ensures !FreeRect(free, rows, cols, Extend(b, side))
    {
      match side {
        case Up =>
        case Down =>
        case Left =>
        case Right =>
      }
    }
    StuckIsMaximal(free, rows, cols, b);
  }

  /** What a rectangle grows into holds it, and nothing free properly contains that. */
  lemma {:induction false} GrowthIsMaximal(free: set<Cell>, rows: int, cols: int, b: Rect)
    requires FreeRect(free, rows, cols, b)
    ensures GrowsTo(free, rows, cols, b).Encloses(b) && Maximal(free, rows, cols, GrowsTo(free, rows, cols, b))
    decreases Slack(b, rows, cols)
  {
    assert Slack(b, rows, cols) >= 0;
    hide Maximal, FreeRect, Slack;
    var grown := Sweep(free, rows, cols, b);
    if grown == b {
      SweepStuck(free, rows, cols, b);
    } else {
      GrowthIsMaximal(free, rows, cols, grown);
    }
  }

  /** A free rectangle that cannot grow by one row or column on any side is maximal. */
  lemma StuckIsMaximal(free: set<Cell>, rows: int, cols: int, b: Rect)
    requires FreeRect(free, rows, cols, b)
    requires forall side :: !FreeRect(free, rows, cols, Extend(b, side))
    ensures Maximal(free, rows, cols, b)
  {
    forall o: Rect | FreeRect(free, rows, cols, o) && o.Encloses(b)
      ensures o == b
    {
      if o.r0 < b.r0 {
        OneStepInside(free, rows, cols, b, o, Up);
      } else if b.r1 < o.r1 {
        OneStepInside(free, rows, cols, b, o, Down);
      } else if o.c0 < b.c0 {
        OneStepInside(free, rows, cols, b, o, Left);
      } else if b.c1 < o.c1 {
        OneStepInside(free, rows, cols, b, o, Right);
      }
    }
  }

  lemma OneStepInside(free: set<Cell>, rows: int, cols: int, b: Rect, o: Rect, side: Side)
    requires b.Within(rows, cols) && FreeRect(free, rows, cols, o)
    requires o.r0 <= Extend(b, side).r0 && Extend(b, side).r1 <= o.r1
    requires o.c0 <= Extend(b, side).c0 && Extend(b, side).c1 <= o.c1
    ensures FreeRect(free, rows, cols, Extend(b, side))
  {
    assert Extend(b, side).Cells() <= o.Cells();
  }
}
