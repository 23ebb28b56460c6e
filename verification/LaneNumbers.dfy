/**
 The figures in the lane names.  The first pass numbers a lane by the round that found it,
 the patches go on from the count of lanes kept: that is exactly when two can agree.
 */
module LaneNumbers {
  import opened Grid
  import opened Masks
  import opened LaneGeometry
  import opened LargestRectangle
  import opened Lanes

  ghost predicate ShareANumber(lanes: seq<Lane>) {
    exists i, j :: 0 <= i < j < |lanes| && lanes[i].number == lanes[j].number
  }

  /** The number of the first-pass lane i lies among those the patches get. */
  ghost predicate NumberTaken(first: seq<Lane>, patches: nat, i: nat)
    requires i < |first|
  {
    |first| < first[i].number <= |first| + patches
  }

  ghost predicate SomeNumberTaken(first: seq<Lane>, patches: nat) {
    exists i: nat :: i < |first| && NumberTaken(first, patches, i)
  }

  /**
   Two of the derived lanes share a number exactly if a first-pass lane's round number
   exceeds the count of first-pass lanes by at most the number of patches.
   */
  lemma NumbersAgreeExactlyIfTaken(rounds: Log, patches: Log, xs: seq<real>, ys: seq<real>)
    requires rounds.Within(|ys|, |xs|) && patches.Within(|ys|, |xs|)
    ensures var first := RoundLanes(rounds, xs, ys);
            var n := |PatchLanesOf(patches, |first|, xs, ys)|;
            ShareANumber(DerivedLanes(rounds, patches, xs, ys)) <==> SomeNumberTaken(first, n)
  {
    var first := RoundLanes(rounds, xs, ys);
    var more := PatchLanesOf(patches, |first|, xs, ys);
    var all := DerivedLanes(rounds, patches, xs, ys);
    forall i, j | 0 <= i < j < |first|
      ensures first[i].number < first[j].number
    {
      RoundNumbersIncrease(rounds, xs, ys, i, j);
    }
    forall k | 0 <= k < |more|
      ensures more[k].number == |first| + k + 1
    {
      PatchLanesAreNumberedOn(patches, |first|, xs, ys, k);
    }
    hide RoundLanes, PatchLanesOf;
    Agreement(first, more, all);
  }

  lemma Agreement(first: seq<Lane>, more: seq<Lane>, all: seq<Lane>)
    requires all == first + more
    requires forall i, j :: 0 <= i < j < |first| ==> first[i].number < first[j].number
    requires forall k :: 0 <= k < |more| ==> more[k].number == |first| + k + 1
    ensures ShareANumber(all) <==> SomeNumberTaken(first, |more|)
  {
    if i: nat :| i < |first| && NumberTaken(first, |more|, i) {
      var k := first[i].number - |first| - 1;
      assert all[i].number == all[|first| + k].number;
    }
    if ShareANumber(all) {
      var i: nat, j: nat :| i < j < |all| && all[i].number == all[j].number;
      assert j >= |first| && i < |first|;
      assert all[j] == more[j - |first|];
      assert NumberTaken(first, |more|, i);
    }
  }

  // ---------------------------------------------------------------- a floor on which it happens

  const ROWS := 21
  const COLS := 500
  const MAIN := Rect(0, 19, 0, 19)
  const SIDE := Rect(0, 9, 20, 24)       // too narrow for a lane of its own
  const PATCH := Rect(0, 9, 0, 24)       // the side arm together with the main floor beside it
  const STRIP := Rect(20, 20, 0, 499)    // the largest rectangle, but one cell wide
  const TALL := Rect(0, 20, 0, 19)       // the main floor together with the strip below it

  ghost function Floor(): set<Cell> { MAIN.Cells() + SIDE.Cells() + STRIP.Cells() }

  function Xs(): seq<real> { seq(COLS, i => i as real * CELL) }

  function Ys(): seq<real> { seq(ROWS, i => i as real * CELL) }

  ghost function Rounds(): Log { Taken(Taken(Taken(Empty, STRIP, false), MAIN, true), SIDE, false) }

  ghost function Patches(): Log { Taken(SecondAttempt(), STRIP, false) }

  ghost predicate SideBySide(p: Cell, q: Cell) {
    || (p.r == q.r && (p.c == q.c + 1 || q.c == p.c + 1))
    || (p.c == q.c && (p.r == q.r + 1 || q.r == p.r + 1))
  }

  /** A way from p to q over side-by-side cells of the floor. */
  ghost predicate LeadsTo(floor: set<Cell>, way: seq<Cell>, p: Cell, q: Cell) {
    && |way| > 0 && way[0] == p && way[|way| - 1] == q && (forall i :: 0 <= i < |way| ==> way[i] in floor)
    && forall i :: 0 <= i < |way| - 1 ==> SideBySide(way[i], way[i + 1])
  }

  ghost predicate Linked(floor: set<Cell>, p: Cell, q: Cell) {
    exists way :: LeadsTo(floor, way, p, q)
  }

  /** All floor is linked to one cell: it is a single 4-connected component. */
  ghost predicate OnePart(floor: set<Cell>, corner: Cell) {
    corner in floor && forall p :: p in floor ==> Linked(floor, p, corner)
  }

  /** Left along the row, then up along the first column. */
  lemma {:induction false} WayToCorner(p: Cell) returns (way: seq<Cell>)
    requires p in Floor()
    ensures LeadsTo(Floor(), way, p, Cell(0, 0))
    decreases p.r + p.c
  {
    way := [p];
    if p != Cell(0, 0) {
      var next := if p.c > 0 then Cell(p.r, p.c - 1) else Cell(p.r - 1, p.c);
      var rest := WayToCorner(next);
      way := [p] + rest;
    }
  }

  lemma FloorIsOnePart()
    ensures OnePart(Floor(), Cell(0, 0))
  {
    forall p | p in Floor()
      ensures Linked(Floor(), p, Cell(0, 0))
    {
      var way := WayToCorner(p);
    }
  }

  lemma FloorRects(b: Rect)
    requires FreeRect(Floor(), ROWS, COLS, b)
    ensures STRIP.Encloses(b) || TALL.Encloses(b) || PATCH.Encloses(b)
  {
    assert Cell(b.r0, b.c1) in b.Cells() && Cell(b.r1, b.c1) in b.Cells();
    assert Cell(if b.r0 <= 19 <= b.r1 then 19 else b.r0, b.c1) in b.Cells();
  }

  lemma RectsInside(free: set<Cell>, a: Rect, b: Rect)
    requires FreeRect(free, ROWS, COLS, b) && free <= a.Cells()
    ensures a.Encloses(b)
  {
    assert Cell(b.r0, b.c0) in b.Cells() && Cell(b.r1, b.c1) in b.Cells();
  }

  lemma EnclosedIsSmaller(a: Rect, b: Rect)
    requires a.Encloses(b) && b.Within(ROWS, COLS)
    ensures b.Area() <= a.Area()
  {
    AreaMonotone(b.Height(), b.Width(), a.Height(), a.Width());
  }

  lemma {:induction false} RowCount(r: int, c0: int, c1: int)
    requires c0 <= c1 + 1
    ensures |Rect(r, r, c0, c1).Cells()| == c1 - c0 + 1
    decreases c1 - c0 + 1
  {
    var row := Rect(r, r, c0, c1).Cells();
    if c0 <= c1 {
      RowCount(r, c0, c1 - 1);
      assert row == Rect(r, r, c0, c1 - 1).Cells() + {Cell(r, c1)};
    } else {
      assert row == {};
    }
  }

  lemma OneRowMore(b: Rect, above: set<Cell>, row: set<Cell>)
    requires b.r0 <= b.r1 && b.c0 <= b.c1 + 1
    requires above == b.(r1 := b.r1 - 1).Cells() && row == Rect(b.r1, b.r1, b.c0, b.c1).Cells()
    ensures b.Cells() == above + row && above !! row
    ensures b.Area() == b.(r1 := b.r1 - 1).Area() + b.Width()
  {
  }

  lemma {:induction false} CellCount(b: Rect)
    requires b.r0 <= b.r1 + 1 && b.c0 <= b.c1 + 1
    ensures |b.Cells()| == b.Area()
    decreases b.r1 - b.r0 + 1
  {
    if b.r0 <= b.r1 {
      var above := b.(r1 := b.r1 - 1);
      CellCount(above);
      RowCount(b.r1, b.c0, b.c1);
      OneRowMore(b, above.Cells(), Rect(b.r1, b.r1, b.c0, b.c1).Cells());
    } else {
      assert b.Cells() == {};
      assert b.Area() == 0;
    }
  }

  lemma OnlyOneAsLarge(a: Rect, b: Rect)
    requires a.Encloses(b) && b.Within(ROWS, COLS) && a.Within(ROWS, COLS) && b.Area() == a.Area()
    ensures b == a
  {
    SameArea(b.Height(), b.Width(), a.Height(), a.Width());
  }

  lemma StripIsLargest()
    ensures IsLargest(Floor(), ROWS, COLS, STRIP) && ComesFirst(Floor(), ROWS, COLS, STRIP)
  {
    forall o: Rect | FreeRect(Floor(), ROWS, COLS, o)
      ensures o.Area() <= STRIP.Area() && (o.Area() == STRIP.Area() ==> o == STRIP)
    {
      FloorRects(o);
      EnclosedIsSmaller(if STRIP.Encloses(o) then STRIP else if TALL.Encloses(o) then TALL else PATCH, o);
      if STRIP.Encloses(o) && o.Area() == STRIP.Area() {
        OnlyOneAsLarge(STRIP, o);
      }
    }
  }

  lemma MainIsLargestNext()
    ensures IsLargest(Floor() - STRIP.Cells(), ROWS, COLS, MAIN) && ComesFirst(Floor() - STRIP.Cells(), ROWS, COLS, MAIN)
  {
    forall o: Rect | FreeRect(Floor() - STRIP.Cells(), ROWS, COLS, o)
      ensures o.Area() <= MAIN.Area() && (o.Area() == MAIN.Area() ==> o == MAIN)
    {
      assert FreeRect(Floor(), ROWS, COLS, o);
      FloorRects(o);
      assert Cell(o.r0, o.c0) in o.Cells() && Cell(o.r1, o.c0) in o.Cells();
      EnclosedIsSmaller(if MAIN.Encloses(o) then MAIN else PATCH, o);
      if MAIN.Encloses(o) && o.Area() == MAIN.Area() {
        OnlyOneAsLarge(MAIN, o);
      }
    }
  }

  lemma SideIsLeft()
    ensures IsLargest(Floor() - (STRIP.Cells() + MAIN.Cells()), ROWS, COLS, SIDE)
    ensures ComesFirst(Floor() - (STRIP.Cells() + MAIN.Cells()), ROWS, COLS, SIDE)
  {
    var left := Floor() - (STRIP.Cells() + MAIN.Cells());
    assert left <= SIDE.Cells();
    forall o: Rect | FreeRect(left, ROWS, COLS, o)
      ensures o.Area() <= SIDE.Area() && (o.Area() == SIDE.Area() ==> o == SIDE)
    {
      RectsInside(left, SIDE, o);
      EnclosedIsSmaller(SIDE, o);
      if o.Area() == SIDE.Area() {
        OnlyOneAsLarge(SIDE, o);
      }
    }
  }

  lemma TargetNotMet()
    ensures !TargetMet(|MAIN.Cells()|, |Floor()|)
  {
    CellCount(MAIN);
    CellCount(STRIP);
    var part := MAIN.Cells() + STRIP.Cells();
    assert MAIN.Cells() !! STRIP.Cells();
    SubsetCard(part, Floor());
  }

  ghost function FirstRound(): Log { Taken(Empty, STRIP, false) }

  ghost function SecondRound(): Log { Taken(FirstRound(), MAIN, true) }

  lemma RoundsSoFar()
    ensures FirstRound().Union() == STRIP.Cells() && SecondRound().Union() == STRIP.Cells() + MAIN.Cells()
    ensures FirstRound().Cover({}) == {} && SecondRound().Cover({}) == MAIN.Cells()
    ensures Rounds().before == SecondRound() && Rounds().Cover({}) == MAIN.Cells()
  {
    assert Empty.Union() == {};
  }

  lemma FirstRoundRuns()
    ensures GreedyRun(Floor(), FirstRound(), Xs(), Ys()) && !GreedyStops(Floor(), FirstRound())
  {
    hide IsLargest, ComesFirst, Floor;
    StripIsLargest();
    assert Empty.Union() == {} && Floor() - {} == Floor();
  }

  lemma SecondRoundRuns()
    ensures GreedyRun(Floor(), SecondRound(), Xs(), Ys()) && !GreedyStops(Floor(), SecondRound())
  {
    RoundsSoFar();
    hide IsLargest, ComesFirst, Floor, TargetMet;
    FirstRoundRuns();
    MainIsLargestNext();
    TargetNotMet();
  }

  lemma RoundsRun()
    ensures GreedyRun(Floor(), Rounds(), Xs(), Ys()) && GreedyDone(Floor(), Rounds(), 200)
    ensures Rounds().Cover({}) == MAIN.Cells()
  {
    RoundsSoFar();
    assert Floor() <= STRIP.Cells() + MAIN.Cells() + SIDE.Cells();
    hide IsLargest, ComesFirst, Floor, TargetMet;
    SecondRoundRuns();
    SideIsLeft();
  }

  lemma AttemptsAreMaximal(b: Rect)
    requires b == PATCH || b == TALL || b == STRIP
    ensures Maximal(Floor(), ROWS, COLS, b)
  {
    forall o: Rect | FreeRect(Floor(), ROWS, COLS, o) && o.Encloses(b)
      ensures o == b
    {
      FloorRects(o);
    }
  }

  // ---------------------------------------------------------------- how the attempts grow

  lemma WhatIsFree(b: Rect)
    ensures FreeRect(Floor(), ROWS, COLS, b) <==>
              b.Within(ROWS, COLS) && (STRIP.Encloses(b) || TALL.Encloses(b) || PATCH.Encloses(b))
  {
    if FreeRect(Floor(), ROWS, COLS, b) {
      FloorRects(b);
    }
  }

  /** The same move and sweep, computed. */
  function MovedHere(b: Rect, side: Side): Rect {
    var larger := Extend(b, side);
    if larger.Within(ROWS, COLS) && (STRIP.Encloses(larger) || TALL.Encloses(larger) || PATCH.Encloses(larger)) then larger
    else b
  }

  function SweptHere(b: Rect): Rect {
    MovedHere(MovedHere(MovedHere(MovedHere(b, Up), Down), Left), Right)
  }

  lemma MovesHere(b: Rect, side: Side)
    ensures Moved(Floor(), ROWS, COLS, b, side) == MovedHere(b, side)
  {
    WhatIsFree(Extend(b, side));
  }

  lemma SweepsHere(b: Rect)
    ensures Sweep(Floor(), ROWS, COLS, b) == SweptHere(b)
  {
    hide Floor, Moved, MovedHere;
    MovesHere(b, Up);
    MovesHere(MovedHere(b, Up), Down);
    MovesHere(MovedHere(MovedHere(b, Up), Down), Left);
    MovesHere(MovedHere(MovedHere(MovedHere(b, Up), Down), Left), Right);
  }

  /** One sweep further on the way. */
  lemma GrowsOn(b: Rect, next: Rect)
    requires FreeRect(Floor(), ROWS, COLS, b) && SweptHere(b) == next
    ensures FreeRect(Floor(), ROWS, COLS, next)
    ensures GrowsTo(Floor(), ROWS, COLS, b) == if next == b then b else GrowsTo(Floor(), ROWS, COLS, next)
  {
    SweepsHere(b);
    hide Floor, Moved, SweptHere, FreeRect;
  }

  /** Down and left from the side arm, right as far as it goes. */
  function PatchAfter(k: nat): Rect {
    Rect(0, if k <= 9 then k else 9, 20 - k, if k <= 4 then 20 + k else 24)
  }

  /** Up from the strip, right as far as the main floor goes. */
  function TallAfter(k: nat): Rect {
    Rect(20 - k, 20, 0, if k <= 19 then k else 19)
  }

  /** Left and right along the strip. */
  function StripAfter(k: nat): Rect {
    Rect(20, 20, if k <= 20 then 20 - k else 0, 20 + k)
  }

  lemma PatchStep(k: nat)
    requires k <= 20
    ensures SweptHere(PatchAfter(k)) == if k < 20 then PatchAfter(k + 1) else PATCH
  {
  }

  lemma TallStep(k: nat)
    requires k <= 20
    ensures SweptHere(TallAfter(k)) == if k < 20 then TallAfter(k + 1) else TALL
  {
  }

  lemma StripStep(k: nat)
    requires k <= 479
    ensures SweptHere(StripAfter(k)) == if k < 479 then StripAfter(k + 1) else STRIP
  {
  }

  lemma {:induction false} PatchGrows(k: nat)
    requires k <= 20
    ensures FreeRect(Floor(), ROWS, COLS, PatchAfter(k)) && GrowsTo(Floor(), ROWS, COLS, PatchAfter(k)) == PATCH
    decreases 20 - k
  {
    WhatIsFree(PatchAfter(k));
    PatchStep(k);
    hide Floor, SweptHere, FreeRect, GrowsTo;
    GrowsOn(PatchAfter(k), if k < 20 then PatchAfter(k + 1) else PATCH);
    if k < 20 {
      PatchGrows(k + 1);
    }
  }

  lemma {:induction false} TallGrows(k: nat)
    requires k <= 20
    ensures FreeRect(Floor(), ROWS, COLS, TallAfter(k)) && GrowsTo(Floor(), ROWS, COLS, TallAfter(k)) == TALL
    decreases 20 - k
  {
    WhatIsFree(TallAfter(k));
    TallStep(k);
    hide Floor, SweptHere, FreeRect, GrowsTo;
    GrowsOn(TallAfter(k), if k < 20 then TallAfter(k + 1) else TALL);
    if k < 20 {
      TallGrows(k + 1);
    }
  }

  lemma {:induction false} StripGrows(k: nat)
    requires k <= 479
    ensures FreeRect(Floor(), ROWS, COLS, StripAfter(k)) && GrowsTo(Floor(), ROWS, COLS, StripAfter(k)) == STRIP
    decreases 479 - k
  {
    WhatIsFree(StripAfter(k));
    StripStep(k);
    hide Floor, SweptHere, FreeRect, GrowsTo;
    GrowsOn(StripAfter(k), if k < 479 then StripAfter(k + 1) else STRIP);
    if k < 479 {
      StripGrows(k + 1);
    }
  }

  /** Each attempt is what the first cell still to be treated grows into. */
  lemma AttemptsGrow()
    ensures GrownFromFirst(Floor(), Floor() - MAIN.Cells() - {}, ROWS, COLS, PATCH)
    ensures GrownFromFirst(Floor(), Floor() - MAIN.Cells() - PATCH.Cells(), ROWS, COLS, TALL)
    ensures GrownFromFirst(Floor(), Floor() - MAIN.Cells() - (PATCH.Cells() + TALL.Cells()), ROWS, COLS, STRIP)
  {
    FirstCells();
    PatchGrows(0);
    TallGrows(0);
    StripGrows(0);
    hide Floor, FreeRect, GrowsTo, IsFirst;
    assert CellRect(Cell(0, 20)) == PatchAfter(0) && CellRect(Cell(20, 0)) == TallAfter(0);
    assert CellRect(Cell(20, 20)) == StripAfter(0);
  }

  lemma PatchIsWorthwhile()
    ensures Worthwhile(PATCH, Xs(), Ys()) && !Worthwhile(STRIP, Xs(), Ys())
  {
  }

  lemma SideIsGained()
    ensures SIDE.Cells() <= PATCH.Cells() * Floor() - MAIN.Cells()
  {
  }

  lemma EarnedByGain(b: Rect, free: set<Cell>, covered: set<Cell>, gained: set<Cell>, xs: seq<real>, ys: seq<real>)
    requires b.Within(|ys|, |xs|) && Worthwhile(b, xs, ys)
    requires gained <= b.Cells() * free - covered && |gained| >= MIN_PATCH_CELLS
    ensures PatchEarned(b, free, covered, xs, ys)
  {
    hide Worthwhile;
    SubsetCard(gained, b.Cells() * free - covered);
  }

  lemma PatchEarnsItsPlace()
    ensures PatchEarned(PATCH, Floor(), MAIN.Cells(), Xs(), Ys())
  {
    PatchIsWorthwhile();
    SideIsGained();
    CellCount(SIDE);
    assert SIDE.Area() == 50;
    hide Worthwhile, Floor, PatchEarned, Xs, Ys;
    EarnedByGain(PATCH, Floor(), MAIN.Cells(), SIDE.Cells(), Xs(), Ys());
  }

  lemma StripEarnsNothing(covered: set<Cell>)
    ensures !PatchEarned(STRIP, Floor(), covered, Xs(), Ys())
  {
    PatchIsWorthwhile();
    hide Worthwhile, Floor;
  }

  /** All that the tall rectangle would add is its part of the strip. */
  lemma TallEarnsNothing()
    ensures !PatchEarned(TALL, Floor(), MAIN.Cells() + PATCH.Cells(), Xs(), Ys())
  {
    var foot := Rect(20, 20, 0, 19);
    RowCount(20, 0, 19);
    var gained := TALL.Cells() * Floor() - (MAIN.Cells() + PATCH.Cells());
    assert gained <= foot.Cells();
    SubsetCard(gained, foot.Cells());
    hide Worthwhile, Floor;
  }

  ghost function FirstAttempt(): Log { Taken(Empty, PATCH, true) }

  ghost function SecondAttempt(): Log { Taken(FirstAttempt(), TALL, false) }

  lemma FirstCells()
    ensures IsFirst(Floor() - MAIN.Cells() - {}, Cell(0, 20)) && PATCH.Has(Cell(0, 20))
    ensures IsFirst(Floor() - MAIN.Cells() - PATCH.Cells(), Cell(20, 0)) && TALL.Has(Cell(20, 0))
    ensures IsFirst(Floor() - MAIN.Cells() - (PATCH.Cells() + TALL.Cells()), Cell(20, 20)) && STRIP.Has(Cell(20, 20))
    ensures Floor() - MAIN.Cells() <= PATCH.Cells() + TALL.Cells() + STRIP.Cells()
  {
  }

  lemma AttemptsSoFar()
    ensures FirstAttempt().Union() == PATCH.Cells() && SecondAttempt().Union() == PATCH.Cells() + TALL.Cells()
    ensures FirstAttempt().Cover(MAIN.Cells()) == SecondAttempt().Cover(MAIN.Cells()) == MAIN.Cells() + PATCH.Cells()
    ensures Patches().Union() == PATCH.Cells() + TALL.Cells() + STRIP.Cells()
  {
    assert Empty.Union() == {};
  }

  lemma AttemptsHoldTheFirst()
    ensures ContainsFirst(Floor() - MAIN.Cells() - {}, PATCH)
    ensures ContainsFirst(Floor() - MAIN.Cells() - PATCH.Cells(), TALL)
    ensures ContainsFirst(Floor() - MAIN.Cells() - (PATCH.Cells() + TALL.Cells()), STRIP)
  {
    FirstCells();
    hide Floor, IsFirst;
  }

  lemma FirstAttemptRuns()
    ensures PatchRun(Floor(), MAIN.Cells(), FirstAttempt(), Xs(), Ys())
  {
    hide Maximal, PatchEarned, Floor, GrownFromFirst, ContainsFirst;
    AttemptsAreMaximal(PATCH);
    PatchEarnsItsPlace();
    AttemptsGrow();
    AttemptsHoldTheFirst();
    assert Empty.Union() == {} && Empty.Cover(MAIN.Cells()) == MAIN.Cells();
  }

  lemma SecondAttemptRuns()
    ensures PatchRun(Floor(), MAIN.Cells(), SecondAttempt(), Xs(), Ys())
  {
    hide Maximal, PatchEarned, Floor, GrownFromFirst, ContainsFirst;
    AttemptsAreMaximal(TALL);
    TallEarnsNothing();
    AttemptsGrow();
    AttemptsHoldTheFirst();
    AttemptsSoFar();
    FirstAttemptRuns();
  }

  lemma PatchesRun()
    ensures PatchRun(Floor(), MAIN.Cells(), Patches(), Xs(), Ys()) && PatchDone(Floor(), MAIN.Cells(), Patches())
  {
    FirstCells();
    hide Maximal, PatchEarned, Floor, GrownFromFirst, ContainsFirst, IsFirst;
    AttemptsAreMaximal(STRIP);
    StripEarnsNothing(SecondAttempt().Cover(MAIN.Cells()));
    AttemptsGrow();
    AttemptsHoldTheFirst();
    AttemptsSoFar();
    SecondAttemptRuns();
  }

  /**
   On one connected floor, a dropped first round, a kept second one and one patch: two
   lanes are called number 2.
   */
  lemma NumbersCanAgree()
    ensures OnePart(Floor(), Cell(0, 0))
    ensures Rounds().Within(ROWS, COLS) && Patches().Within(ROWS, COLS)
    ensures Derives(Floor(), Rounds(), Patches(), Xs(), Ys(), 200) && Increasing(Xs()) && Increasing(Ys())
    ensures var lanes := DerivedLanes(Rounds(), Patches(), Xs(), Ys());
            |lanes| == 2 && lanes[0].number == lanes[1].number == 2 && lanes[0] != lanes[1]
  {
    FloorIsOnePart();
    RoundsRun();
    PatchesRun();
    hide OnePart, GreedyRun, PatchRun, GreedyDone, PatchDone, Floor, Worthwhile;
    var xs, ys := Xs(), Ys();
    assert RoundLanes(FirstRound(), xs, ys) == [];
    assert RoundLanes(Rounds(), xs, ys) == RoundLanes(SecondRound(), xs, ys) == [LaneOf(MAIN, 2, xs, ys)];
    assert PatchLanesOf(Patches(), 1, xs, ys) == PatchLanesOf(SecondAttempt(), 1, xs, ys) == PatchLanesOf(FirstAttempt(), 1, xs, ys) == [LaneOf(PATCH, 2, xs, ys)];
  }
}
