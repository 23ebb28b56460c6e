/**
 The two passes that derive the drivable lanes from the reachable mask, and the
 mask the lanes declare.
 */
module Lanes {
  import opened Options
  import opened Grid
  import opened Masks
  import opened LaneGeometry
  import opened LargestRectangle

  /** The number of cells of `b` that are reachable and not covered yet. */
  method CountNew(reachable: array2<bool>, covered: array2<bool>, b: Rect) returns (n: nat)
    requires b.Within(reachable.Length0, reachable.Length1)
    requires covered.Length0 == reachable.Length0 && covered.Length1 == reachable.Length1
    ensures n == |b.Cells() * TrueCells(reachable) - TrueCells(covered)|
  {
    var fresh' := AndNot(reachable, covered);
    var inside := new bool[reachable.Length0, reachable.Length1](
      (i, j) requires 0 <= i < fresh'.Length0 && 0 <= j < fresh'.Length1 reads fresh' =>
        fresh'[i, j] && b.Has(Cell(i, j)));
    n := CountTrue(inside);
    forall p
      ensures p in TrueCells(inside) <==> p in b.Cells() * TrueCells(reachable) - TrueCells(covered)
    {
      assert p == Cell(p.r, p.c);
      if InBounds(reachable, p) {
        assert fresh'[p.r, p.c] <==> p in TrueCells(fresh');
      }
    }
    assert TrueCells(inside) == b.Cells() * TrueCells(reachable) - TrueCells(covered);
  }

  /** Why the greedy pass stopped: rounds used up, no free cell left, or the target met. */
  ghost predicate GreedyDone(free: set<Cell>, log: Log, maxRects: nat) {
    log.Length() == maxRects || free <= log.Union() || GreedyStops(free, log)
  }

  lemma NothingLeft(free: set<Cell>, taken: set<Cell>)
    requires free - taken == {}
    ensures free <= taken
  {
    assert forall p :: p in free && p !in taken ==> p in free - taken;
  }

  /** What holds between two rounds: the masks and the lanes are those of the log. */
  ghost predicate GreedyState(free: set<Cell>, left: set<Cell>, cover: set<Cell>, lanes: seq<Lane>, log: Log,
                              xs: seq<real>, ys: seq<real>) {
    && GreedyRun(free, log, xs, ys) && log.Within(|ys|, |xs|)
    && left == free - log.Union() && cover == log.Cover({})
    && lanes == RoundLanes(log, xs, ys)
  }

  lemma RoundTaken(free: set<Cell>, left: set<Cell>, cover: set<Cell>, lanes: seq<Lane>, log: Log, b: Rect,
                   xs: seq<real>, ys: seq<real>)
    requires GreedyState(free, left, cover, lanes, log, xs, ys) && !GreedyStops(free, log)
    requires IsLargest(left, |ys|, |xs|, b) && ComesFirst(left, |ys|, |xs|, b)
    ensures if Worthwhile(b, xs, ys)
            then GreedyState(free, left - b.Cells(), cover + b.Cells(),
                             lanes + [LaneOf(b, log.Length() + 1, xs, ys)], Taken(log, b, true), xs, ys)
            else GreedyState(free, left - b.Cells(), cover, lanes, Taken(log, b, false), xs, ys)
  {
    assert left - b.Cells() == free - (log.Union() + b.Cells());
  }

  /** How a round ended: nothing was left, the rectangle was dropped, or it became a lane. */
  datatype Round = NothingFree | Dropped | Kept(lane: Lane)

  /** One round: take the largest rectangle left and, if it is worth a lane, cover it. */
  method GreedyRound(remaining: array2<bool>, covered: array2<bool>, xs: seq<real>, ys: seq<real>, k: nat,
                     lanes: seq<Lane>, ghost free: set<Cell>, ghost log: Log)
    returns (round: Round, ghost log': Log)
    requires |ys| == remaining.Length0 == covered.Length0 && |xs| == remaining.Length1 == covered.Length1
    requires covered != remaining && k == log.Length()
    requires GreedyState(free, TrueCells(remaining), TrueCells(covered), lanes, log, xs, ys)
    requires !GreedyStops(free, log)
    modifies remaining, covered
    ensures GreedyState(free, TrueCells(remaining), TrueCells(covered),
                        if round.Kept? then lanes + [round.lane] else lanes, log', xs, ys)
    ensures round.NothingFree? ==> log' == log && free <= log.Union()
    ensures !round.NothingFree? ==> log'.Taken? && log'.before == log && log'.kept == round.Kept?
  {
    ghost var left, cover := TrueCells(remaining), TrueCells(covered);
    round, log' := NothingFree, log;
    var box := LargestRect(remaining);
    if box.None? {
      NothingLeft(free, log.Union());
      return;
    }
    var b := box.value;
    RoundTaken(free, left, cover, lanes, log, b, xs, ys);
    FillRect(remaining, b, false);
    round, log' := Dropped, Taken(log, b, Worthwhile(b, xs, ys));
    if Worthwhile(b, xs, ys) {
      FillRect(covered, b, true);
      round := Kept(LaneOf(b, k + 1, xs, ys));
    }
  }

  /** The first pass: one largest rectangle after the other. */
  method GreedyPass(reachable: array2<bool>, covered: array2<bool>, xs: seq<real>, ys: seq<real>, maxRects: nat)
    returns (lanes: seq<Lane>, ghost log: Log)
    requires |ys| == reachable.Length0 == covered.Length0 && |xs| == reachable.Length1 == covered.Length1
    requires covered != reachable && TrueCells(covered) == {}
    modifies covered
    ensures GreedyState(TrueCells(reachable), TrueCells(reachable) - log.Union(), TrueCells(covered), lanes, log, xs, ys)
    ensures log.Length() <= maxRects && GreedyDone(TrueCells(reachable), log, maxRects)
  {
    ghost var free := TrueCells(reachable);
    var none := new bool[reachable.Length0, reachable.Length1]((i, j) => false);
    var remaining := AndNot(reachable, none);
    var reachableCount := CountTrue(reachable);
    lanes, log := [], Empty;
    var k := 0;
    while k < maxRects
      invariant log.Length() == k <= maxRects && fresh(remaining)
      invariant remaining.Length0 == |ys| && remaining.Length1 == |xs|
      invariant GreedyState(free, TrueCells(remaining), TrueCells(covered), lanes, log, xs, ys)
      invariant !GreedyStops(free, log)
    {
      var round;
      round, log := GreedyRound(remaining, covered, xs, ys, k, lanes, free, log);
      if round.NothingFree? {
        break;
      }
      k := k + 1;
      if round.Dropped? {
        continue;
      }
      lanes := lanes + [round.lane];
      var coveredCount := CountTrue(covered);
      if TargetMet(coveredCount, reachableCount) {
        break;
      }
    }
  }

  /** Grows `b` by one row or column on `side` if that stays in bounds and reachable. */
  method TrySide(reachable: array2<bool>, b: Rect, side: Side) returns (grown: Rect)
    requires FreeRect(TrueCells(reachable), reachable.Length0, reachable.Length1, b)
    ensures grown == Moved(TrueCells(reachable), reachable.Length0, reachable.Length1, b, side)
  {
    var larger := Extend(b, side);
    if larger.Within(reachable.Length0, reachable.Length1) {
      var all := AllTrue(reachable, larger);
      if all {
        return larger;
      }
    }
    return b;
  }

  /** One sweep over up, down, left, right. */
  method GrowOnce(reachable: array2<bool>, b: Rect) returns (grown: Rect)
    requires FreeRect(TrueCells(reachable), reachable.Length0, reachable.Length1, b)
    ensures grown == Sweep(TrueCells(reachable), reachable.Length0, reachable.Length1, b)
  {
    hide Moved, FreeRect;
    var up := TrySide(reachable, b, Up);
    var down := TrySide(reachable, up, Down);
    var left := TrySide(reachable, down, Left);
    grown := TrySide(reachable, left, Right);
  }

  /** Expands the single cell `seed` within the reachable mask until no side can move. */
  method Grow(reachable: array2<bool>, seed: Cell) returns (b: Rect)
    requires seed in TrueCells(reachable)
    ensures FreeRect(TrueCells(reachable), reachable.Length0, reachable.Length1, CellRect(seed))
    ensures b == GrowsTo(TrueCells(reachable), reachable.Length0, reachable.Length1, CellRect(seed))
    ensures b.Has(seed) && Maximal(TrueCells(reachable), reachable.Length0, reachable.Length1, b)
  {
    b := CellRect(seed);
    assert b.Cells() == {seed};
    ghost var free, rows, cols := TrueCells(reachable), reachable.Length0, reachable.Length1;
    GrowthIsMaximal(free, rows, cols, b);
    var grew := true;
    while grew
      invariant FreeRect(free, rows, cols, b) && GrowsTo(free, rows, cols, b) == GrowsTo(free, rows, cols, CellRect(seed))
      invariant !grew ==> b == GrowsTo(free, rows, cols, b)
      decreases Slack(b, rows, cols), grew
    {
      var grown := GrowOnce(reachable, b);
      grew := grown != b;
      b := grown;
    }
  }

  /** Whether a grown rectangle has earned a patch lane. */
  method EarnsPatch(reachable: array2<bool>, covered: array2<bool>, b: Rect, xs: seq<real>, ys: seq<real>)
    returns (earned: bool)
    requires |ys| == reachable.Length0 == covered.Length0 && |xs| == reachable.Length1 == covered.Length1
    requires b.Within(|ys|, |xs|)
    ensures earned <==> PatchEarned(b, TrueCells(reachable), TrueCells(covered), xs, ys)
  {
    if !Worthwhile(b, xs, ys) {
      return false;
    }
    var newCells := CountNew(reachable, covered, b);
    GainInCells(newCells);
    return !(newCells as real * CELL * CELL < MIN_PATCH_GAIN_M2);
  }

  const MAX_PATCH_ATTEMPTS := 200

  /** Why the patch pass stopped: attempts used up, or every reachable cell treated. */
  ghost predicate PatchDone(free: set<Cell>, base: set<Cell>, log: Log) {
    log.Length() == MAX_PATCH_ATTEMPTS || free - base <= log.Union()
  }

  /** What holds between two attempts. */
  ghost predicate PatchState(free: set<Cell>, base: set<Cell>, todo: set<Cell>, cover: set<Cell>, lanes: seq<Lane>,
                             log: Log, start: int, xs: seq<real>, ys: seq<real>) {
    && PatchRun(free, base, log, xs, ys) && log.Within(|ys|, |xs|)
    && todo == free - base - log.Union() && cover == log.Cover(base)
    && lanes == PatchLanesOf(log, start, xs, ys)
  }

  lemma AttemptMade(free: set<Cell>, base: set<Cell>, todo: set<Cell>, cover: set<Cell>, lanes: seq<Lane>,
                    log: Log, b: Rect, earned: bool, start: int, xs: seq<real>, ys: seq<real>)
    requires PatchState(free, base, todo, cover, lanes, log, start, xs, ys)
    requires GrownFromFirst(free, todo, |ys|, |xs|, b) && ContainsFirst(todo, b)
    requires b.Within(|ys|, |xs|) && Maximal(free, |ys|, |xs|, b)
    requires earned == PatchEarned(b, free, cover, xs, ys)
    ensures PatchState(free, base, todo - b.Cells(), if earned then cover + b.Cells() else cover,
                       if earned then lanes + [LaneOf(b, start + |lanes| + 1, xs, ys)] else lanes,
                       Taken(log, b, earned), start, xs, ys)
  {
    hide PatchEarned, GrownFromFirst, ContainsFirst, Maximal;
    TakenAway(free - base, log.Union(), b.Cells());
  }

  lemma GrowthOfFirst(free: set<Cell>, todo: set<Cell>, rows: int, cols: int, seed: Cell, b: Rect)
    requires IsFirst(todo, seed) && FreeRect(free, rows, cols, CellRect(seed)) && b == GrowsTo(free, rows, cols, CellRect(seed))
    requires b.Has(seed) && Maximal(free, rows, cols, b)
    ensures GrownFromFirst(free, todo, rows, cols, b) && ContainsFirst(todo, b) && b.Within(rows, cols)
  {
  }

  lemma TakenAway(free: set<Cell>, taken: set<Cell>, b: set<Cell>)
    ensures free - taken - b == free - (taken + b)
  {
  }

  /** One attempt: grow the first cell still to be treated and keep the patch if it earns its place. */
  method PatchAttempt(reachable: array2<bool>, covered: array2<bool>, toTreat: array2<bool>, seed: Cell,
                      xs: seq<real>, ys: seq<real>, lanes: seq<Lane>, index: int,
                      ghost free: set<Cell>, ghost base: set<Cell>, ghost log: Log)
    returns (lane: Option<Lane>, ghost log': Log)
    requires |ys| == reachable.Length0 == covered.Length0 == toTreat.Length0
    requires |xs| == reachable.Length1 == covered.Length1 == toTreat.Length1
    requires covered != reachable && toTreat != reachable && covered != toTreat
    requires TrueCells(reachable) == free
    requires PatchState(free, base, TrueCells(toTreat), TrueCells(covered), lanes, log, index - |lanes|, xs, ys)
    requires IsFirst(TrueCells(toTreat), seed)
    modifies covered, toTreat
    ensures log'.Taken? && log'.before == log
    ensures PatchState(free, base, TrueCells(toTreat), TrueCells(covered),
                       if lane.Some? then lanes + [lane.value] else lanes, log', index - |lanes|, xs, ys)
  {
    hide PatchEarned, GrowsTo, Maximal, GrownFromFirst, ContainsFirst, FreeRect;
    ghost var todo, cover := TrueCells(toTreat), TrueCells(covered);
    assert seed in free;
    var b := Grow(reachable, seed);
    GrowthOfFirst(free, todo, |ys|, |xs|, seed, b);
    var earned := EarnsPatch(reachable, covered, b, xs, ys);
    AttemptMade(free, base, todo, cover, lanes, log, b, earned, index - |lanes|, xs, ys);
    FillRect(toTreat, b, false);
    lane, log' := None, Taken(log, b, earned);
    if earned {
      FillRect(covered, b, true);
      lane := Some(LaneOf(b, index + 1, xs, ys));
    }
  }

  /** The second pass: patches for what the first one left uncovered. */
  method PatchLanes(reachable: array2<bool>, covered: array2<bool>, xs: seq<real>, ys: seq<real>, startIndex: int)
    returns (lanes: seq<Lane>, ghost log: Log)
    requires |ys| == reachable.Length0 == covered.Length0 && |xs| == reachable.Length1 == covered.Length1
    requires covered != reachable
    modifies covered
    ensures PatchState(TrueCells(reachable), old(TrueCells(covered)),
                       TrueCells(reachable) - old(TrueCells(covered)) - log.Union(), TrueCells(covered),
                       lanes, log, startIndex, xs, ys)
    ensures log.Length() <= MAX_PATCH_ATTEMPTS && PatchDone(TrueCells(reachable), old(TrueCells(covered)), log)
  {
    hide PatchEarned;
    ghost var free, base := TrueCells(reachable), TrueCells(covered);
    lanes, log := [], Empty;
    var index := startIndex;
    var toTreat := AndNot(reachable, covered);
    var guard := 0;
    while guard < MAX_PATCH_ATTEMPTS
      invariant guard == log.Length() <= MAX_PATCH_ATTEMPTS && fresh(toTreat)
      invariant toTreat.Length0 == |ys| && toTreat.Length1 == |xs|
      invariant TrueCells(reachable) == free && index == startIndex + |lanes|
      invariant PatchState(free, base, TrueCells(toTreat), TrueCells(covered), lanes, log, startIndex, xs, ys)
    {
      var first := FirstTrue(toTreat);
      if first.None? {
        NothingLeft(free - base, log.Union());
        break;
      }
      guard := guard + 1;
      var lane;
      lane, log := PatchAttempt(reachable, covered, toTreat, first.value, xs, ys, lanes, index, free, base, log);
      if lane.Some? {
        index := index + 1;
        lanes := lanes + [lane.value];
      }
    }
  }

  /** The greedy rounds over `free`, then the patch attempts over what they left. */
  ghost predicate Derives(free: set<Cell>, rounds: Log, patches: Log, xs: seq<real>, ys: seq<real>, maxRects: nat) {
    && GreedyRun(free, rounds, xs, ys) && rounds.Within(|ys|, |xs|)
    && rounds.Length() <= maxRects && GreedyDone(free, rounds, maxRects)
    && PatchRun(free, rounds.Cover({}), patches, xs, ys) && patches.Within(|ys|, |xs|)
    && patches.Length() <= MAX_PATCH_ATTEMPTS && PatchDone(free, rounds.Cover({}), patches)
  }

  /** The lanes of a derivation: patches are numbered on from the count of first-pass lanes. */
  ghost function DerivedLanes(rounds: Log, patches: Log, xs: seq<real>, ys: seq<real>): seq<Lane>
    requires rounds.Within(|ys|, |xs|) && patches.Within(|ys|, |xs|)
  {
    var first := RoundLanes(rounds, xs, ys);
    first + PatchLanesOf(patches, |first|, xs, ys)
  }

  /** The derived lanes declare exactly the covered floor, and no unreachable cell. */
  lemma DeclaredFloorIsReachable(free: set<Cell>, rounds: Log, patches: Log, xs: seq<real>, ys: seq<real>, maxRects: nat)
    requires Derives(free, rounds, patches, xs, ys, maxRects) && Increasing(xs) && Increasing(ys)
    ensures Raster(DerivedLanes(rounds, patches, xs, ys), xs, ys) == patches.Cover(rounds.Cover({}))
    ensures patches.Cover(rounds.Cover({})) <= free
  {
    var first := RoundLanes(rounds, xs, ys);
    RoundRaster(rounds, xs, ys);
    PatchRaster(first, patches, |first|, xs, ys);
    GreedyBoxesAreFree(free, rounds, xs, ys);
    CoverBounds(rounds, {});
    PatchBoxesAreFree(free, rounds.Cover({}), patches, xs, ys);
    CoverBounds(patches, rounds.Cover({}));
  }

  /**
   A reachable cell that the lanes do not declare was left out by a patch rectangle not
   worth its lane, unless the attempts of the patch pass ran out.
   */
  lemma UndeclaredFloorHasAReason(free: set<Cell>, rounds: Log, patches: Log, xs: seq<real>, ys: seq<real>,
                                  maxRects: nat, r: int, c: int)
    requires Derives(free, rounds, patches, xs, ys, maxRects) && Increasing(xs) && Increasing(ys)
    requires Cell(r, c) in free && Cell(r, c) !in Raster(DerivedLanes(rounds, patches, xs, ys), xs, ys)
    ensures patches.Length() == MAX_PATCH_ATTEMPTS ||
            NotWorthAPatch(free, Raster(DerivedLanes(rounds, patches, xs, ys), xs, ys), xs, ys, Cell(r, c))
  {
    DeclaredFloorIsReachable(free, rounds, patches, xs, ys, maxRects);
    if patches.Length() < MAX_PATCH_ATTEMPTS {
      UndeclaredFloorIsNotWorthAPatch(free, rounds.Cover({}), patches, xs, ys, Cell(r, c));
    }
  }

  // ---------------------------------------------------------------- the mask leaves no choice

  lemma {:induction false} RunsAgree(free: set<Cell>, a: Log, b: Log, xs: seq<real>, ys: seq<real>)
    requires GreedyRun(free, a, xs, ys) && GreedyRun(free, b, xs, ys) && a.Length() <= b.Length()
    ensures b.After(a.Length()) == a
    decreases b
  {
    hide IsLargest, ComesFirst, GreedyStops, Worthwhile;
    if a.Length() < b.Length() {
      RunsAgree(free, a, b.before, xs, ys);
    } else if b.Taken? {
      RunsAgree(free, a.before, b.before, xs, ys);
      assert b.before.After(a.before.Length()) == b.before;
      FirstLargestIsOne(free - a.before.Union(), |ys|, |xs|, a.box, b.box);
    }
  }

  lemma {:induction false} NextRound(free: set<Cell>, log: Log, xs: seq<real>, ys: seq<real>, k: nat)
    requires GreedyRun(free, log, xs, ys) && k < log.Length()
    ensures !GreedyStops(free, log.After(k)) && !(free <= log.After(k).Union())
    decreases log
  {
    hide ComesFirst, GreedyStops, Worthwhile;
    if k < log.Length() - 1 {
      NextRound(free, log.before, xs, ys, k);
    } else {
      assert log.After(k) == log.before;
      assert Cell(log.box.r0, log.box.c0) in log.box.Cells();
    }
  }

  /** Two greedy passes over one mask that have both come to their end are the same. */
  lemma GreedyPassIsDetermined(free: set<Cell>, a: Log, b: Log, xs: seq<real>, ys: seq<real>, maxRects: nat)
    requires GreedyRun(free, a, xs, ys) && a.Length() <= maxRects && GreedyDone(free, a, maxRects)
    requires GreedyRun(free, b, xs, ys) && b.Length() <= maxRects && GreedyDone(free, b, maxRects)
    ensures a == b
  {
    hide GreedyRun, GreedyStops;
    if a.Length() <= b.Length() {
      RunsAgree(free, a, b, xs, ys);
      if a.Length() < b.Length() {
        NextRound(free, b, xs, ys, a.Length());
      }
    } else {
      RunsAgree(free, b, a, xs, ys);
      NextRound(free, a, xs, ys, b.Length());
    }
  }

  lemma GrownIsOne(free: set<Cell>, todo: set<Cell>, rows: int, cols: int, b: Rect, o: Rect)
    requires GrownFromFirst(free, todo, rows, cols, b) && GrownFromFirst(free, todo, rows, cols, o)
    ensures b == o
  {
    hide GrowsTo, FreeRect;
    var p :| IsFirst(todo, p) && FreeRect(free, rows, cols, CellRect(p)) && b == GrowsTo(free, rows, cols, CellRect(p));
    var q :| IsFirst(todo, q) && FreeRect(free, rows, cols, CellRect(q)) && o == GrowsTo(free, rows, cols, CellRect(q));
    assert !Before(p, q) && !Before(q, p);
    assert p == q;
  }

  lemma {:induction false} AttemptsAgree(free: set<Cell>, base: set<Cell>, a: Log, b: Log, xs: seq<real>, ys: seq<real>)
    requires PatchRun(free, base, a, xs, ys) && PatchRun(free, base, b, xs, ys) && a.Length() <= b.Length()
    ensures b.After(a.Length()) == a
    decreases b
  {
    hide GrownFromFirst, ContainsFirst, Maximal, PatchEarned;
    if a.Length() < b.Length() {
      AttemptsAgree(free, base, a, b.before, xs, ys);
    } else if b.Taken? {
      AttemptsAgree(free, base, a.before, b.before, xs, ys);
      assert b.before.After(a.before.Length()) == b.before;
      GrownIsOne(free, free - base - a.before.Union(), |ys|, |xs|, a.box, b.box);
    }
  }

  lemma {:induction false} NextAttempt(free: set<Cell>, base: set<Cell>, log: Log, xs: seq<real>, ys: seq<real>, k: nat)
    requires PatchRun(free, base, log, xs, ys) && k < log.Length()
    ensures !(free - base <= log.After(k).Union())
    decreases log
  {
    hide GrownFromFirst, Maximal, PatchEarned;
    if k < log.Length() - 1 {
      NextAttempt(free, base, log.before, xs, ys, k);
    } else {
      assert log.After(k) == log.before;
    }
  }

  lemma PatchPassIsDetermined(free: set<Cell>, base: set<Cell>, a: Log, b: Log, xs: seq<real>, ys: seq<real>)
    requires PatchRun(free, base, a, xs, ys) && a.Length() <= MAX_PATCH_ATTEMPTS && PatchDone(free, base, a)
    requires PatchRun(free, base, b, xs, ys) && b.Length() <= MAX_PATCH_ATTEMPTS && PatchDone(free, base, b)
    ensures a == b
  {
    hide PatchRun;
    if a.Length() <= b.Length() {
      AttemptsAgree(free, base, a, b, xs, ys);
      if a.Length() < b.Length() {
        NextAttempt(free, base, b, xs, ys, a.Length());
      }
    } else {
      AttemptsAgree(free, base, b, a, xs, ys);
      NextAttempt(free, base, a, xs, ys, b.Length());
    }
  }

  /** So the lanes of a mask are determined, with their numbers and their order. */
  lemma LanesAreDetermined(free: set<Cell>, rounds: Log, patches: Log, rounds': Log, patches': Log,
                           xs: seq<real>, ys: seq<real>, maxRects: nat)
    requires Derives(free, rounds, patches, xs, ys, maxRects) && Derives(free, rounds', patches', xs, ys, maxRects)
    ensures rounds == rounds' && patches == patches'
    ensures DerivedLanes(rounds, patches, xs, ys) == DerivedLanes(rounds', patches', xs, ys)
  {
    hide GreedyRun, PatchRun, GreedyDone, PatchDone;
    GreedyPassIsDetermined(free, rounds, rounds', xs, ys, maxRects);
    PatchPassIsDetermined(free, rounds.Cover({}), patches, patches', xs, ys);
  }

  /** The drivable lanes of the reachable mask, first pass and patches. */
  method AutoLanes(reachable: array2<bool>, xs: seq<real>, ys: seq<real>, maxRects: nat := 200)
    returns (lanes: seq<Lane>, ghost rounds: Log, ghost patches: Log)
    requires |ys| == reachable.Length0 && |xs| == reachable.Length1 && Increasing(xs) && Increasing(ys)
    ensures Raster(lanes, xs, ys) <= TrueCells(reachable)
    ensures Derives(TrueCells(reachable), rounds, patches, xs, ys, maxRects)
    ensures lanes == DerivedLanes(rounds, patches, xs, ys)
    ensures Raster(lanes, xs, ys) == patches.Cover(rounds.Cover({}))
  {
    var covered := new bool[reachable.Length0, reachable.Length1]((i, j) => false);
    assert TrueCells(covered) == {};
    var more;
    lanes, rounds := GreedyPass(reachable, covered, xs, ys, maxRects);
    more, patches := PatchLanes(reachable, covered, xs, ys, |lanes|);
    lanes := lanes + more;
    DeclaredFloorIsReachable(TrueCells(reachable), rounds, patches, xs, ys, maxRects);
  }

  /** The declared driveable mask: the union of the lanes, rasterised. */
  method LaneMask(lanes: seq<Lane>, xs: seq<real>, ys: seq<real>) returns (m: array2<bool>)
    ensures fresh(m) && m.Length0 == |ys| && m.Length1 == |xs|
    ensures TrueCells(m) == Raster(lanes, xs, ys)
  {
    m := new bool[|ys|, |xs|]((i, j) => false);
    assert lanes[..0] == [];
    for k := 0 to |lanes|
      invariant fresh(m) && m.Length0 == |ys| && m.Length1 == |xs|
      invariant TrueCells(m) == Raster(lanes[..k], xs, ys)
    {
      OrLane(m, lanes[k], xs, ys);
      assert lanes[..k + 1][..k] == lanes[..k];
    }
    assert lanes[..|lanes|] == lanes;
  }

  /** Adds the cells whose centres lie in the lane to the mask. */
  method OrLane(m: array2<bool>, l: Lane, xs: seq<real>, ys: seq<real>)
    requires m.Length0 == |ys| && m.Length1 == |xs|
    modifies m
    ensures TrueCells(m) == old(TrueCells(m)) + LaneCells(l, xs, ys)
  {
    for r := 0 to |ys|
      invariant forall i, j :: 0 <= i < |ys| && 0 <= j < |xs| ==>
                  m[i, j] == (old(m[i, j]) || (i < r && l.Contains(xs[j], ys[i])))
    {
      for c := 0 to |xs|
        invariant forall i, j :: 0 <= i < |ys| && 0 <= j < |xs| ==>
                    m[i, j] == (old(m[i, j]) || ((i < r || (i == r && j < c)) && l.Contains(xs[j], ys[i])))
      {
        m[r, c] := m[r, c] || l.Contains(xs[c], ys[r]);
      }
    }
  }
}
