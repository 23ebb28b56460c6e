/**
 Walks on the 8-connected grid graph and their lengths.
 */
module Routing {
  import opened Grid

  const RES := 0.10  // grid resolution, m

  /** The eight neighbour offsets, in the order in which they are tried. */
  const NEIGHBOURS: seq<(int, int)> :=
    [(-1, -1), (-1, 0), (-1, 1), (0, -1), (0, 1), (1, -1), (1, 0), (1, 1)]

  function Neighbour(u: Cell, k: int): Cell
    requires 0 <= k < 8
  {
    Cell(u.r + NEIGHBOURS[k].0, u.c + NEIGHBOURS[k].1)
  }

  predicate Adjacent(u: Cell, v: Cell) {
    u != v && -1 <= v.r - u.r <= 1 && -1 <= v.c - u.c <= 1
  }

  lemma NeighboursAreAdjacent(u: Cell, v: Cell)
    ensures Adjacent(u, v) <==> exists k :: 0 <= k < 8 && v == Neighbour(u, k)
  {
    if Adjacent(u, v) {
      var i := (v.r - u.r + 1) * 3 + (v.c - u.c + 1);
      var k := if i < 4 then i else i - 1;
      assert v == Neighbour(u, k);
    }
  }

  /** Length of one step: RES along an axis, `diagonal` across both. */
  function Step(diagonal: real, u: Cell, v: Cell): real {
    if u.r != v.r && u.c != v.c then diagonal else RES
  }

  /** A step to `v` is allowed when `v` is a free neighbour; the cell one leaves need not be free. */
  ghost predicate Edge(free: set<Cell>, u: Cell, v: Cell) {
    v in free && Adjacent(u, v)
  }

  ghost predicate Walk(free: set<Cell>, p: seq<Cell>) {
    |p| > 0 && forall i {:trigger p[i]} :: 0 <= i < |p| - 1 ==> Edge(free, p[i], p[i + 1])
  }

  ghost predicate IsPath(free: set<Cell>, start: Cell, goal: Cell, p: seq<Cell>) {
    Walk(free, p) && p[0] == start && p[|p| - 1] == goal
  }

  function Cost(diagonal: real, p: seq<Cell>): real {
    if |p| <= 1 then 0.0 else Cost(diagonal, p[..|p| - 1]) + Step(diagonal, p[|p| - 2], p[|p| - 1])
  }

  /** No path from `start` to `goal` is shorter than `p`. */
  ghost predicate Shortest(free: set<Cell>, diagonal: real, start: Cell, goal: Cell, p: seq<Cell>) {
    && IsPath(free, start, goal, p)
    && forall q :: IsPath(free, start, goal, q) ==> Cost(diagonal, p) <= Cost(diagonal, q)
  }

  lemma {:induction false} CostNonNegative(diagonal: real, p: seq<Cell>)
    requires diagonal > 0.0
    ensures Cost(diagonal, p) >= 0.0
    ensures |p| > 1 ==> Cost(diagonal, p) > 0.0
  {
    if |p| > 1 {
      CostNonNegative(diagonal, p[..|p| - 1]);
    }
  }

  /** Splitting a walk at position i splits its length. */
  lemma {:induction false} CostSplits(diagonal: real, p: seq<Cell>, i: nat)
    requires i < |p|
    ensures Cost(diagonal, p) == Cost(diagonal, p[..i + 1]) + Cost(diagonal, p[i..])
  {
    if i == |p| - 1 {
      assert p[..i + 1] == p;
    } else {
      var init := p[..|p| - 1];
      CostSplits(diagonal, init, i);
      assert init[..i + 1] == p[..i + 1];
      assert p[i..][..|p[i..]| - 1] == init[i..];
    }
  }

  lemma CostPrepend(diagonal: real, x: Cell, p: seq<Cell>)
    requires |p| > 0
    ensures Cost(diagonal, [x] + p) == Step(diagonal, x, p[0]) + Cost(diagonal, p)
  {
    var q := [x] + p;
    CostSplits(diagonal, q, 1);
    assert q[..2] == [x, p[0]] && q[1..] == p;
    assert [x, p[0]][..1] == [x];
    assert Cost(diagonal, [x]) == 0.0;
  }

  // ---------------------------------------------------------------- what the length measures

  predicate ChangesOne(u: Cell, v: Cell) { (u.r == v.r) != (u.c == v.c) }

  predicate ChangesBoth(u: Cell, v: Cell) { u.r != v.r && u.c != v.c }

  ghost predicate MoveChangesOne(p: seq<Cell>, i: int)
    requires 0 <= i < |p| - 1
  {
    ChangesOne(p[i], p[i + 1])
  }

  ghost predicate MoveChangesBoth(p: seq<Cell>, i: int)
    requires 0 <= i < |p| - 1
  {
    ChangesBoth(p[i], p[i + 1])
  }

  /** The moves of a walk that change one coordinate only. */
  ghost function StraightMoves(p: seq<Cell>): set<int> {
    set i | 0 <= i < |p| - 1 && MoveChangesOne(p, i)
  }

  /** The moves of a walk that change both coordinates. */
  ghost function DiagonalMoves(p: seq<Cell>): set<int> {
    set i | 0 <= i < |p| - 1 && MoveChangesBoth(p, i)
  }

  lemma SameMoves(p: seq<Cell>, n: nat, i: int)
    requires 0 <= i < n - 1 < |p| - 1
    ensures MoveChangesOne(p[..n], i) == MoveChangesOne(p, i) && MoveChangesBoth(p[..n], i) == MoveChangesBoth(p, i)
  {
  }

  lemma MovesOneMore(p: seq<Cell>)
    requires |p| > 1
    ensures var n := |p| - 1;
            && |StraightMoves(p)| == |StraightMoves(p[..n])| + (if ChangesOne(p[n - 1], p[n]) then 1 else 0)
            && |DiagonalMoves(p)| == |DiagonalMoves(p[..n])| + (if ChangesBoth(p[n - 1], p[n]) then 1 else 0)
  {
    var n := |p| - 1;
    assert MoveChangesOne(p, n - 1) == ChangesOne(p[n - 1], p[n]);
    assert MoveChangesBoth(p, n - 1) == ChangesBoth(p[n - 1], p[n]);
    hide MoveChangesOne, MoveChangesBoth;
    forall i | 0 <= i < n - 1
      ensures i in StraightMoves(p[..n]) <==> i in StraightMoves(p)
      ensures i in DiagonalMoves(p[..n]) <==> i in DiagonalMoves(p)
    {
      SameMoves(p, n, i);
    }
    OneMore(StraightMoves(p[..n]), n - 1, StraightMoves(p));
    OneMore(DiagonalMoves(p[..n]), n - 1, DiagonalMoves(p));
  }

  lemma OneMore(s: set<int>, n: int, t: set<int>)
    requires (forall i :: i in s ==> i < n) && (forall i :: i in t ==> i <= n)
    requires forall i :: i < n ==> (i in s <==> i in t)
    ensures |t| == |s| + (if n in t then 1 else 0)
  {
    var u := if n in t then s + {n} else s;
    forall i
      ensures i in t <==> i in u
    {
      if i < n {
        assert i in s <==> i in t;
      }
    }
    assert t == u;
  }

  lemma OneMoreOf(x: real, n: int)
    ensures x * (n + 1) as real == x * n as real + x
  {
    assert (n + 1) as real == n as real + 1.0;
  }

  /** The length of so many moves along an axis and so many across both. */
  function LengthOf(diagonal: real, straight: nat, slanted: nat): real {
    RES * straight as real + diagonal * slanted as real
  }

  lemma LengthOfOneMore(diagonal: real, straight: nat, slanted: nat)
    ensures LengthOf(diagonal, straight, slanted + 1) == LengthOf(diagonal, straight, slanted) + diagonal
    ensures LengthOf(diagonal, straight + 1, slanted) == LengthOf(diagonal, straight, slanted) + RES
  {
    OneMoreOf(diagonal, slanted);
  }

  /** The length of a walk: RES for every move along an axis, `diagonal` for every move across both. */
  lemma {:induction false} CostCountsMoves(free: set<Cell>, diagonal: real, p: seq<Cell>)
    requires Walk(free, p)
    ensures Cost(diagonal, p) == LengthOf(diagonal, |StraightMoves(p)|, |DiagonalMoves(p)|)
  {
    hide StraightMoves, DiagonalMoves;
    var n := |p| - 1;
    if n == 0 {
      NoMoves(diagonal, p);
    } else {
      hide LengthOf;
      CostCountsMoves(free, diagonal, p[..n]);
      MovesOneMore(p);
      assert Edge(free, p[n - 1], p[n]);
      hide Walk, Edge;
      LengthOfOneMore(diagonal, |StraightMoves(p[..n])|, |DiagonalMoves(p[..n])|);
    }
  }

  lemma NoMoves(diagonal: real, p: seq<Cell>)
    requires |p| == 1
    ensures LengthOf(diagonal, |StraightMoves(p)|, |DiagonalMoves(p)|) == 0.0
  {
    assert StraightMoves(p) == {} && DiagonalMoves(p) == {};
  }

  function Gap(x: int, y: int): nat { if x <= y then y - x else x - y }

  /** As many moves across both axes as the smaller coordinate difference has, the rest along one axis. */
  function Octile(diagonal: real, a: Cell, b: Cell): real {
    var h, w := Gap(a.r, b.r), Gap(a.c, b.c);
    if h <= w then diagonal * h as real + RES * (w - h) as real else diagonal * w as real + RES * (h - w) as real
  }

  /** The octile distance by the sum of the two gaps and the lesser one. */
  function Parts(surplus: real, sum: int, lesser: int): real {
    RES * sum as real + surplus * lesser as real
  }

  lemma PartsStep(surplus: real, sum: int, lesser: int, sum': int, lesser': int)
    requires -1 <= lesser' - lesser <= 1
    ensures Parts(surplus, sum', lesser') == Parts(surplus, sum, lesser) + RES * (sum' - sum) as real
              + (if lesser' > lesser then surplus else if lesser' < lesser then -surplus else 0.0)
  {
    OneMoreOrLess(surplus, lesser, lesser');
  }

  lemma OctileSplits(diagonal: real, a: Cell, b: Cell)
    ensures var h, w := Gap(a.r, b.r), Gap(a.c, b.c);
            Octile(diagonal, a, b) == Parts(diagonal - 2.0 * RES, h + w, Lesser(h, w))
  {
  }

  function Lesser(x: nat, y: nat): nat { if x <= y then x else y }

  lemma OneMoreOrLess(x: real, m: int, n: int)
    requires -1 <= n - m <= 1
    ensures x * n as real == x * m as real + (if n > m then x else if n < m then -x else 0.0)
  {
    if n == m + 1 {
      OneMoreOf(x, m);
    } else if m == n + 1 {
      OneMoreOf(x, n);
    }
  }

  /** A move changes the gap on an axis by one or leaves it. */
  lemma GapStep(x: int, y: int, z: int)
    requires -1 <= z - y <= 1
    ensures -1 <= Gap(x, z) - Gap(x, y) <= 1 && (Gap(x, z) == Gap(x, y) <==> z == y)
  {
  }

  /** One move changes the octile distance by no more than its length. */
  lemma OctileStep(diagonal: real, a: Cell, b: Cell, c: Cell)
    requires RES <= diagonal <= 2.0 * RES && Adjacent(b, c)
    ensures Octile(diagonal, a, c) <= Octile(diagonal, a, b) + Step(diagonal, b, c)
  {
    OctileSplits(diagonal, a, b);
    OctileSplits(diagonal, a, c);
    GapStep(a.r, b.r, c.r);
    GapStep(a.c, b.c, c.c);
    hide Octile, Gap, Parts;
    var h, w, h', w' := Gap(a.r, b.r), Gap(a.c, b.c), Gap(a.r, c.r), Gap(a.c, c.c);
    var surplus := diagonal - 2.0 * RES;
    StepCovers(surplus, h, w, h', w');
    PartsStep(surplus, h + w, Lesser(h, w), h' + w', Lesser(h', w'));
  }

  /** Moves by one in both gaps, or in one: what the two parts of the octile distance gain together. */
  lemma StepCovers(surplus: real, h: nat, w: nat, h': nat, w': nat)
    requires -RES <= surplus <= 0.0 && -1 <= h' - h <= 1 && -1 <= w' - w <= 1 && (h' != h || w' != w)
    ensures var m, m' := Lesser(h, w), Lesser(h', w');
            && -1 <= m' - m <= 1
            && RES * (h' + w' - h - w) as real + (if m' > m then surplus else if m' < m then -surplus else 0.0)
               <= if h' != h && w' != w then surplus + 2.0 * RES else RES
  {
  }

  /** No walk is shorter than the octile distance between its ends. */
  lemma {:induction false} NoWalkBeatsOctile(free: set<Cell>, diagonal: real, p: seq<Cell>)
    requires Walk(free, p) && RES <= diagonal <= 2.0 * RES
    ensures Cost(diagonal, p) >= Octile(diagonal, p[0], p[|p| - 1])
  {
    hide Octile, Step;
    var n := |p| - 1;
    if n == 0 {
      OctileOfOne(diagonal, p[0]);
    } else {
      NoWalkBeatsOctile(free, diagonal, p[..n]);
      assert Edge(free, p[n - 1], p[n]);
      OctileStep(diagonal, p[0], p[n - 1], p[n]);
    }
  }

  lemma OctileOfOne(diagonal: real, a: Cell)
    ensures Octile(diagonal, a, a) == 0.0
  {
  }

  function Toward(x: int, y: int): int { if x < y then x + 1 else if x > y then x - 1 else x }

  /** Across both axes as long as both coordinates differ, then along one. */
  function DirectPath(a: Cell, b: Cell): seq<Cell>
    decreases Gap(a.r, b.r) + Gap(a.c, b.c)
  {
    if a == b then [a] else [a] + DirectPath(Cell(Toward(a.r, b.r), Toward(a.c, b.c)), b)
  }

  ghost predicate Between(x: int, y: int, z: int) { x <= y <= z || z <= y <= x }

  /** All cells of the rectangle between a and b, both corners included. */
  ghost predicate OpenBetween(free: set<Cell>, a: Cell, b: Cell) {
    forall r, c :: Between(a.r, r, b.r) && Between(a.c, c, b.c) ==> Cell(r, c) in free
  }

  lemma {:induction false} DirectPathIsOctile(free: set<Cell>, diagonal: real, a: Cell, b: Cell)
    requires OpenBetween(free, a, b)
    ensures IsPath(free, a, b, DirectPath(a, b)) && Cost(diagonal, DirectPath(a, b)) == Octile(diagonal, a, b)
    decreases Gap(a.r, b.r) + Gap(a.c, b.c)
  {
    if a == b {
      OctileOfOne(diagonal, a);
    } else {
      var next := Cell(Toward(a.r, b.r), Toward(a.c, b.c));
      var rest := DirectPath(next, b);
      assert Cell(next.r, next.c) in free;
      DirectPathIsOctile(free, diagonal, next, b);
      CostPrepend(diagonal, a, rest);
      DirectStep(diagonal, a, b);
      hide Octile, Step, Cost;
      var p := [a] + rest;
      forall i {:trigger p[i]} | 0 <= i < |p| - 1
        ensures Edge(free, p[i], p[i + 1])
      {
        if i > 0 {
          assert Edge(free, rest[i - 1], rest[i]);
        }
      }
    }
  }

  lemma DirectStep(diagonal: real, a: Cell, b: Cell)
    requires a != b
    ensures var next := Cell(Toward(a.r, b.r), Toward(a.c, b.c));
            Octile(diagonal, a, b) == Step(diagonal, a, next) + Octile(diagonal, next, b)
  {
    var next := Cell(Toward(a.r, b.r), Toward(a.c, b.c));
    OctileSplits(diagonal, a, b);
    OctileSplits(diagonal, next, b);
    hide Octile, Parts;
    var h, w, h', w' := Gap(a.r, b.r), Gap(a.c, b.c), Gap(next.r, b.r), Gap(next.c, b.c);
    PartsStep(diagonal - 2.0 * RES, h + w, Lesser(h, w), h' + w', Lesser(h', w'));
  }

  /** Where nothing is in the way a shortest path has the octile length. */
  lemma OpenFloorIsCrossedDirectly(free: set<Cell>, diagonal: real, start: Cell, goal: Cell, p: seq<Cell>)
    requires Shortest(free, diagonal, start, goal, p) && OpenBetween(free, start, goal)
    requires RES <= diagonal <= 2.0 * RES
    ensures Cost(diagonal, p) == Octile(diagonal, start, goal)
  {
    hide Cost, Octile;
    DirectPathIsOctile(free, diagonal, start, goal);
    NoWalkBeatsOctile(free, diagonal, p);
  }

  function Reversed<T>(s: seq<T>): (r: seq<T>)
    ensures |r| == |s|
    ensures forall i :: 0 <= i < |s| ==> r[i] == s[|s| - 1 - i]
  {
    seq(|s|, i requires 0 <= i < |s| => s[|s| - 1 - i])
  }
}
