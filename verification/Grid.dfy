/**
 Cells, inclusive rectangles and boolean masks of a rasterised floor.  A mask is
 updated in place; its meaning is the finite set of its True cells.
 */
module Grid {

  datatype Cell = Cell(r: int, c: int)

  /** Rows r0..r1 and columns c0..c1, both ends included. */
  datatype Rect = Rect(r0: int, r1: int, c0: int, c1: int) {
    function Height(): int { r1 - r0 + 1 }

    function Width(): int { c1 - c0 + 1 }

    function Area(): int { Height() * Width() }

    predicate Has(p: Cell) {
      r0 <= p.r <= r1 && c0 <= p.c <= c1
    }

    ghost function Cells(): set<Cell> {
      set r, c | r0 <= r <= r1 && c0 <= c <= c1 :: Cell(r, c)
    }

    predicate Encloses(b: Rect) {
      r0 <= b.r0 && b.r1 <= r1 && c0 <= b.c0 && b.c1 <= c1
    }

    predicate Within(rows: int, cols: int) {
      0 <= r0 <= r1 < rows && 0 <= c0 <= c1 < cols
    }
  }

  ghost function TrueCells(m: array2<bool>): set<Cell>
    reads m
  {
    set r, c | 0 <= r < m.Length0 && 0 <= c < m.Length1 && m[r, c] :: Cell(r, c)
  }

  predicate InBounds(m: array2<bool>, p: Cell) {
    0 <= p.r < m.Length0 && 0 <= p.c < m.Length1
  }

  /** `b` is a non-empty rectangle inside a rows x cols grid with every cell free. */
  ghost predicate FreeRect(free: set<Cell>, rows: int, cols: int, b: Rect) {
    b.Within(rows, cols) && b.Cells() <= free
  }

  /** No free rectangle of the grid has more cells than `b`. */
  ghost predicate IsLargest(free: set<Cell>, rows: int, cols: int, b: Rect) {
    && FreeRect(free, rows, cols, b)
    && forall o: Rect :: FreeRect(free, rows, cols, o) ==> o.Area() <= b.Area()
  }

  /** Of all free rectangles as large, `b` is the first to end, by row and column, and the tallest of those. */
  ghost predicate ComesFirst(free: set<Cell>, rows: int, cols: int, b: Rect) {
    forall o: Rect :: FreeRect(free, rows, cols, o) && o.Area() == b.Area() ==>
      || b.r1 < o.r1
      || (b.r1 == o.r1 && (b.c1 < o.c1 || (b.c1 == o.c1 && b.r0 <= o.r0)))
  }

  lemma SameProduct(x: int, y: int, h: int)
    requires h > 0 && h * x == h * y
    ensures x == y
  {
    assert h * (x - y) == 0;
  }

  /** So there is only one such rectangle. */
  lemma FirstLargestIsOne(free: set<Cell>, rows: int, cols: int, b: Rect, o: Rect)
    requires IsLargest(free, rows, cols, b) && ComesFirst(free, rows, cols, b)
    requires IsLargest(free, rows, cols, o) && ComesFirst(free, rows, cols, o)
    ensures b == o
  {
    assert b.Area() == o.Area();
    assert b.r1 == o.r1 && b.c1 == o.c1 && b.r0 == o.r0;
    SameProduct(b.Width(), o.Width(), b.Height());
  }
}
