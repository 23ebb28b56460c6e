/** Small facts about products and squares of reals. */
module RealAlgebra {
  function Square(u: real): real {
    u * u
  }

  lemma PositiveProduct(u: real, v: real, p: real)
    requires u > 0.0 && v > 0.0 && p == u * v
    ensures p > 0.0
  {
  }

  lemma PositiveSquare(u: real, s: real)
    requires u > 0.0 && s == u * u
    ensures s > 0.0
  {
    PositiveProduct(u, u, s);
  }

  lemma SquareSign(u: real)
    ensures Square(u) >= 0.0
    ensures u != 0.0 ==> Square(u) > 0.0
  {
    if u > 0.0 {
      PositiveSquare(u, Square(u));
    } else if u < 0.0 {
      PositiveSquare(-u, Square(u));
    } else {
      assert u == 0.0;
    }
  }

  lemma HalfSquare(u: real, v: real)
    ensures Square(u - v) <= 2.0 * Square(u) + 2.0 * Square(v)
  {
    assert Square(u - v) + Square(u + v) == 2.0 * Square(u) + 2.0 * Square(v);
    hide Square;
    SquareSign(u + v);
  }

  lemma PositiveFactor(u: real, v: real, p: real)
    requires u > 0.0 && p > 0.0 && p == u * v
    ensures v > 0.0
  {
    if v < 0.0 {
      PositiveProduct(u, -v, -p);
    }
  }

  lemma NonNegativeProduct(u: real, v: real, p: real)
    requires u >= 0.0 && v >= 0.0 && p == u * v
    ensures p >= 0.0
  {
  }
}
