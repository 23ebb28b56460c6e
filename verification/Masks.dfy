/**
 The array operations the lane builder applies to its masks, each specified on
 the set of True cells.
 */
module Masks {
  import opened Options
  import opened Grid

  /** Row-major order: by row, and within a row by column. */
  predicate Before(p: Cell, q: Cell) {
    p.r < q.r || (p.r == q.r && p.c < q.c)
  }

  ghost predicate IsFirst(cells: set<Cell>, first: Cell) {
    first in cells && forall p :: p in cells ==> !Before(p, first)
  }

  /** The True cells that precede (r, c) in row-major order. */
  ghost function CellsBefore(m: array2<bool>, r: int, c: int): set<Cell>
    reads m
  {
    set p | p in TrueCells(m) && Before(p, Cell(r, c))
  }

  lemma CellsBeforeStep(m: array2<bool>, r: int, c: int)
    requires 0 <= r < m.Length0 && 0 <= c < m.Length1
    ensures |CellsBefore(m, r, c + 1)| == |CellsBefore(m, r, c)| + (if m[r, c] then 1 else 0)
  {
    if m[r, c] {
      assert CellsBefore(m, r, c + 1) == CellsBefore(m, r, c) + {Cell(r, c)};
    } else {
      assert CellsBefore(m, r, c + 1) == CellsBefore(m, r, c);
    }
  }

  /** Sets every cell of the rectangle to one value. */
  method FillRect(m: array2<bool>, b: Rect, value: bool)
    requires b.Within(m.Length0, m.Length1)
    modifies m
    ensures value ==> TrueCells(m) == old(TrueCells(m)) + b.Cells()
    ensures !value ==> TrueCells(m) == old(TrueCells(m)) - b.Cells()
  {
    for r := b.r0 to b.r1 + 1
      invariant forall i, j :: 0 <= i < m.Length0 && 0 <= j < m.Length1 ==>
                  m[i, j] == if b.r0 <= i < r && b.c0 <= j <= b.c1 then value else old(m[i, j])
    {
      for c := b.c0 to b.c1 + 1
        invariant forall i, j :: 0 <= i < m.Length0 && 0 <= j < m.Length1 ==>
                    m[i, j] == if (b.r0 <= i < r && b.c0 <= j <= b.c1) || (i == r && b.c0 <= j < c)
                               then value else old(m[i, j])
      {
        m[r, c] := value;
      }
    }
  }

  /** Whether every cell of the rectangle is True. */
  method AllTrue(m: array2<bool>, b: Rect) returns (all: bool)
    requires b.Within(m.Length0, m.Length1)
    ensures all <==> b.Cells() <= TrueCells(m)
  {
    for r := b.r0 to b.r1 + 1
      invariant forall i, j :: b.r0 <= i < r && b.c0 <= j <= b.c1 ==> m[i, j]
    {
      for c := b.c0 to b.c1 + 1
        invariant forall j :: b.c0 <= j < c ==> m[r, j]
      {
        if !m[r, c] {
          assert Cell(r, c) in b.Cells() && Cell(r, c) !in TrueCells(m);
          return false;
        }
      }
    }
    return true;
  }

  /** The first True cell in row-major order, None when there is none. */
  method FirstTrue(m: array2<bool>) returns (first: Option<Cell>)
    ensures first.None? <==> TrueCells(m) == {}
    ensures first.Some? ==> IsFirst(TrueCells(m), first.value)
  {
    for r := 0 to m.Length0
      invariant forall i, j :: 0 <= i < r && 0 <= j < m.Length1 ==> !m[i, j]
    {
      for c := 0 to m.Length1
        invariant forall j :: 0 <= j < c ==> !m[r, j]
      {
        if m[r, c] {
          assert Cell(r, c) in TrueCells(m);
          return Some(Cell(r, c));
        }
      }
    }
    return None;
  }

  /** The number of True cells. */
  method CountTrue(m: array2<bool>) returns (n: nat)
    ensures n == |TrueCells(m)|
  {
    n := 0;
    for r := 0 to m.Length0
      invariant n == |CellsBefore(m, r, 0)|
    {
      for c := 0 to m.Length1
        invariant n == |CellsBefore(m, r, c)|
      {
        CellsBeforeStep(m, r, c);
        if m[r, c] {
          n := n + 1;
        }
      }
      assert CellsBefore(m, r + 1, 0) == CellsBefore(m, r, m.Length1);
    }
    assert CellsBefore(m, m.Length0, 0) == TrueCells(m);
  }

  /** A fresh rows x cols mask of the cells of `a` that are not True in `b`. */
  method AndNot(a: array2<bool>, b: array2<bool>) returns (m: array2<bool>)
    requires a.Length0 == b.Length0 && a.Length1 == b.Length1
    ensures fresh(m) && m.Length0 == a.Length0 && m.Length1 == a.Length1
    ensures TrueCells(m) == TrueCells(a) - TrueCells(b)
  {
    m := new bool[a.Length0, a.Length1]((i, j) requires 0 <= i < a.Length0 && 0 <= j < a.Length1
                                                reads a, b => a[i, j] && !b[i, j]);
  }
}
