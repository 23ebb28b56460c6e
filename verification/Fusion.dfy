/**
 Information-form fusion of the position estimates that several cameras give of one
 robot position.  Matrices are symmetric 2x2 and exact.
 */
module Fusion {
  import opened Options
  import opened RealAlgebra

  datatype Vec = Vec(x: real, y: real)

  /** The symmetric matrix with rows (a, b) and (b, d). */
  datatype Sym = Sym(a: real, b: real, d: real)

  datatype Estimate = Estimate(xy: Vec, covariance: Sym)

  const ZERO := Sym(0.0, 0.0, 0.0)
  const ORIGIN := Vec(0.0, 0.0)

  function Plus(u: Vec, v: Vec): Vec { Vec(u.x + v.x, u.y + v.y) }

  function Minus(u: Vec, v: Vec): Vec { Vec(u.x - v.x, u.y - v.y) }

  function Dot(u: Vec, v: Vec): real { u.x * v.x + u.y * v.y }

  function Add(m: Sym, n: Sym): Sym { Sym(m.a + n.a, m.b + n.b, m.d + n.d) }

  function Apply(m: Sym, v: Vec): Vec { Vec(Row(m.a, m.b, v), Row(m.b, m.d, v)) }

  function Row(a: real, b: real, v: Vec): real { a * v.x + b * v.y }

  function Det(m: Sym): real { m.a * m.d - m.b * m.b }

  function Adjugate(m: Sym): Sym { Sym(m.d, -m.b, m.a) }

  function Product(k: real, x: real): real { k * x }

  function Times(k: real, m: Sym): Sym { Sym(Product(k, m.a), Product(k, m.b), Product(k, m.d)) }

  function Inverse(m: Sym): Sym
    requires Det(m) != 0.0
  {
    Times(1.0 / Det(m), Adjugate(m))
  }

  /** The quadratic form of m at v: the squared Mahalanobis length when m is a precision. */
  function Quad(m: Sym, v: Vec): real { Dot(v, Apply(m, v)) }

  /** Sylvester's criterion. */
  predicate PositiveDefinite(m: Sym) { m.a > 0.0 && Det(m) > 0.0 }

  // ---------------------------------------------------------------- matrix algebra

  lemma DotSum(u: Vec, v: Vec, w: Vec)
    ensures Dot(u, Plus(v, w)) == Dot(u, v) + Dot(u, w)
    ensures Dot(u, v) == Dot(v, u)
  {
  }

  lemma ApplySum(m: Sym, n: Sym, v: Vec)
    ensures Apply(Add(m, n), v) == Plus(Apply(m, v), Apply(n, v))
  {
  }

  lemma QuadSum(m: Sym, n: Sym, v: Vec)
    ensures Quad(Add(m, n), v) == Quad(m, v) + Quad(n, v)
  {
    hide Dot, Apply, Plus, Add;
    ApplySum(m, n, v);
    DotSum(v, Apply(m, v), Apply(n, v));
  }

  lemma QuadOfDifference(m: Sym, u: Vec, v: Vec)
    ensures Quad(m, Minus(u, v)) == Quad(m, u) - 2.0 * Dot(u, Apply(m, v)) + Quad(m, v)
  {
  }

  lemma CompletedSquare(m: Sym, v: Vec)
    ensures m.a * Quad(m, v) == Square(m.a * v.x + m.b * v.y) + Det(m) * Square(v.y)
  {
  }

  function Scale(k: real, v: Vec): Vec { Vec(Product(k, v.x), Product(k, v.y)) }

  lemma RowCancels(m: Sym, v: Vec)
    ensures Row(m.a, m.b, Vec(Row(m.d, -m.b, v), Row(-m.b, m.a, v))) == Product(Det(m), v.x)
    ensures Row(-m.b, m.a, Vec(Row(m.a, m.b, v), Row(m.b, m.d, v))) == Product(Det(m), v.y)
  {
  }

  lemma RowCancelsBelow(m: Sym, v: Vec)
    ensures Row(m.b, m.d, Vec(Row(m.d, -m.b, v), Row(-m.b, m.a, v))) == Product(Det(m), v.y)
    ensures Row(m.d, -m.b, Vec(Row(m.a, m.b, v), Row(m.b, m.d, v))) == Product(Det(m), v.x)
  {
  }

  lemma RowScales(a: real, b: real, k: real, v: Vec)
    ensures Row(Product(k, a), Product(k, b), v) == Product(k, Row(a, b, v))
    ensures Row(a, b, Vec(Product(k, v.x), Product(k, v.y))) == Product(k, Row(a, b, v))
  {
  }

  lemma AdjugateCancels(m: Sym, v: Vec)
    ensures Apply(m, Apply(Adjugate(m), v)) == Scale(Det(m), v)
    ensures Apply(Adjugate(m), Apply(m, v)) == Scale(Det(m), v)
  {
    hide Row, Product, Det;
    RowCancels(m, v);
    RowCancelsBelow(m, v);
  }

  lemma ScaleMovesThrough(m: Sym, k: real, v: Vec)
    ensures Apply(Times(k, m), v) == Scale(k, Apply(m, v))
    ensures Apply(m, Scale(k, v)) == Scale(k, Apply(m, v))
  {
    hide Row, Product;
    RowScales(m.a, m.b, k, v);
    RowScales(m.b, m.d, k, v);
  }

  lemma ScaleBack(k: real, s: real, v: Vec)
    requires k * s == 1.0
    ensures Scale(k, Scale(s, v)) == v
  {
    assert k * (s * v.x) == (k * s) * v.x && k * (s * v.y) == (k * s) * v.y;
  }

  lemma InverseUndoes(m: Sym, v: Vec)
    requires Det(m) != 0.0
    ensures Apply(m, Apply(Inverse(m), v)) == v
    ensures Apply(Inverse(m), Apply(m, v)) == v
  {
    hide Apply, Adjugate, Det, Times, Scale;
    var k := 1.0 / Det(m);
    AdjugateCancels(m, v);
    ScaleMovesThrough(Adjugate(m), k, v);
    ScaleMovesThrough(Adjugate(m), k, Apply(m, v));
    ScaleMovesThrough(m, k, Apply(Adjugate(m), v));
    ScaleBack(k, Det(m), v);
  }

  lemma InverseIsInvolution(m: Sym)
    requires Det(m) != 0.0
    ensures Det(Inverse(m)) != 0.0 && Inverse(Inverse(m)) == m
    ensures PositiveDefinite(m) ==> PositiveDefinite(Inverse(m))
  {
  }

  /** Sylvester's criterion says what it should. */
  lemma PositiveForm(m: Sym, v: Vec)
    requires PositiveDefinite(m) && v != ORIGIN
    ensures Quad(m, v) > 0.0
  {
    CompletedSquare(m, v);
    var first, second := Square(m.a * v.x + m.b * v.y), Det(m) * Square(v.y);
    SquareSign(m.a * v.x + m.b * v.y);
    SquareSign(v.y);
    hide Quad, Square, Det;
    if v.y != 0.0 {
      PositiveProduct(Det(m), Square(v.y), second);
    } else {
      assert v.x != 0.0 by {
        assert v == Vec(v.x, v.y);
      }
      OnTheAxis(m, v);
    }
    PositiveFactor(m.a, Quad(m, v), first + second);
  }

  lemma OnTheAxis(m: Sym, v: Vec)
    requires m.a > 0.0 && v.y == 0.0 && v.x != 0.0
    ensures m.a * Quad(m, v) > 0.0
  {
    var s := Square(v.x);
    SquareSign(v.x);
    var t := Square(m.a);
    SquareSign(m.a);
    PositiveProduct(t, s, t * s);
    assert m.a * Quad(m, v) == t * s;
  }

  lemma SumIsPositiveDefinite(m: Sym, n: Sym)
    requires PositiveDefinite(m) && PositiveDefinite(n)
    ensures PositiveDefinite(Add(m, n))
  {
  }

  // ---------------------------------------------------------------- fusion

  ghost predicate Invertible(items: seq<Estimate>) {
    forall i :: 0 <= i < |items| ==> Det(items[i].covariance) != 0.0
  }

  ghost predicate AllPositiveDefinite(items: seq<Estimate>) {
    forall i :: 0 <= i < |items| ==> PositiveDefinite(items[i].covariance)
  }

  function Information(item: Estimate): Sym
    requires Det(item.covariance) != 0.0
  {
    Inverse(item.covariance)
  }

  ghost function PrecisionOf(items: seq<Estimate>): Sym
    requires Invertible(items)
  {
    if items == [] then ZERO
    else Add(PrecisionOf(items[..|items| - 1]), Information(items[|items| - 1]))
  }

  ghost function WeightedOf(items: seq<Estimate>): Vec
    requires Invertible(items)
  {
    if items == [] then ORIGIN
    else
      var last := items[|items| - 1];
      Plus(WeightedOf(items[..|items| - 1]), Apply(Information(last), last.xy))
  }

  /** The fused estimate; None where a matrix to be inverted is singular. */
  ghost function Fused(items: seq<Estimate>): Option<Estimate> {
    if !Invertible(items) || Det(PrecisionOf(items)) == 0.0 then None
    else
      var covariance := Inverse(PrecisionOf(items));
      Some(Estimate(Apply(covariance, WeightedOf(items)), covariance))
  }

  method Fuse(items: seq<Estimate>) returns (fused: Option<Estimate>)
    ensures fused == Fused(items)
  {
    var precision, weighted := ZERO, ORIGIN;
    hide Inverse, Apply, Det;
    for i := 0 to |items|
      invariant Invertible(items[..i])
      invariant precision == PrecisionOf(items[..i]) && weighted == WeightedOf(items[..i])
    {
      var item := items[i];
      if Det(item.covariance) == 0.0 {
        return None;
      }
      assert items[..i + 1][..i] == items[..i];
      var information := Inverse(item.covariance);
      precision := Add(precision, information);
      weighted := Plus(weighted, Apply(information, item.xy));
    }
    assert items[..|items|] == items;
    if Det(precision) == 0.0 {
      return None;
    }
    var covariance := Inverse(precision);
    fused := Some(Estimate(Apply(covariance, weighted), covariance));
  }

  // ---------------------------------------------------------------- the fused covariance

  lemma NonNegativeForm(m: Sym, v: Vec)
    requires PositiveDefinite(m)
    ensures Quad(m, v) >= 0.0
  {
    if v != ORIGIN {
      PositiveForm(m, v);
    }
  }

  lemma InformationIsPositive(item: Estimate)
    requires PositiveDefinite(item.covariance)
    ensures PositiveDefinite(Information(item))
  {
    InverseIsInvolution(item.covariance);
  }

  lemma {:induction false} PrecisionIsPositive(items: seq<Estimate>)
    requires AllPositiveDefinite(items) && Invertible(items) && |items| > 0
    ensures PositiveDefinite(PrecisionOf(items))
  {
    hide PositiveDefinite, Information;
    var n := |items| - 1;
    InformationIsPositive(items[n]);
    if n > 0 {
      PrecisionIsPositive(items[..n]);
      SumIsPositiveDefinite(PrecisionOf(items[..n]), Information(items[n]));
    } else {
      assert PrecisionOf(items[..0]) == ZERO;
    }
  }

  lemma PositiveIsInvertible(items: seq<Estimate>)
    requires AllPositiveDefinite(items)
    ensures Invertible(items)
  {
  }

  /** Estimates with positive definite covariances always fuse, into one with such a covariance. */
  lemma FusionSucceeds(items: seq<Estimate>)
    requires AllPositiveDefinite(items) && |items| > 0
    ensures Fused(items).Some? && PositiveDefinite(Fused(items).value.covariance)
  {
    PositiveIsInvertible(items);
    PrecisionIsPositive(items);
    InverseIsInvolution(PrecisionOf(items));
  }

  /** The total precision dominates every member's, as a quadratic form. */
  lemma {:induction false} PrecisionDominates(items: seq<Estimate>, i: nat, v: Vec)
    requires AllPositiveDefinite(items) && Invertible(items) && i < |items|
    ensures Quad(Information(items[i]), v) <= Quad(PrecisionOf(items), v)
  {
    hide PositiveDefinite, Information, Quad;
    var n := |items| - 1;
    var init := items[..n];
    QuadSum(PrecisionOf(init), Information(items[n]), v);
    InformationIsPositive(items[n]);
    NonNegativeForm(Information(items[n]), v);
    if i < n {
      PrecisionDominates(init, i, v);
    } else if n > 0 {
      PrecisionIsPositive(init);
      NonNegativeForm(PrecisionOf(init), v);
    } else {
      ZeroForm(v);
    }
  }

  lemma ZeroForm(v: Vec)
    ensures Quad(ZERO, v) == 0.0 && Dot(v, ORIGIN) == 0.0
  {
  }

  /** Inverting turns matrix order around. */
  lemma InverseReversesOrder(m: Sym, n: Sym, v: Vec)
    requires PositiveDefinite(m) && PositiveDefinite(n)
    requires forall w :: Quad(m, w) <= Quad(n, w)
    ensures Quad(Inverse(n), v) <= Quad(Inverse(m), v)
  {
    assert Det(m) != 0.0 && Det(n) != 0.0;
    InverseUndoes(m, v);
    InverseUndoes(n, v);
    var u, w := Apply(Inverse(m), v), Apply(Inverse(n), v);
    NonNegativeForm(m, Minus(w, u));
    QuadOfDifference(m, w, u);
    assert Quad(m, u) == Dot(u, v) && Quad(n, w) == Dot(w, v);
    assert Quad(Inverse(m), v) == Dot(v, u) && Quad(Inverse(n), v) == Dot(v, w);
    hide Quad, Apply, Inverse, Dot, PositiveDefinite;
    DotSum(u, v, v);
    DotSum(w, v, v);
    assert Quad(m, w) <= Quad(n, w);
  }

  /** The fused covariance is no larger, in matrix order, than any camera's own. */
  lemma FusedCovarianceIsSmallest(items: seq<Estimate>, i: nat, v: Vec)
    requires AllPositiveDefinite(items) && i < |items|
    ensures Fused(items).Some? && Quad(Fused(items).value.covariance, v) <= Quad(items[i].covariance, v)
  {
    hide PositiveDefinite, Inverse, Quad;
    FusionSucceeds(items);
    var item := items[i];
    InformationIsPositive(item);
    PrecisionIsPositive(items);
    forall w
      ensures Quad(Information(item), w) <= Quad(PrecisionOf(items), w)
    {
      PrecisionDominates(items, i, w);
    }
    InverseReversesOrder(Information(item), PrecisionOf(items), v);
    assert Det(item.covariance) != 0.0;
    InverseIsInvolution(item.covariance);
  }

  // ---------------------------------------------------------------- the fused position

  /** The sum of the squared Mahalanobis distances from z to the estimates. */
  ghost function Cost(items: seq<Estimate>, z: Vec): real
    requires Invertible(items)
  {
    if items == [] then 0.0
    else
      var last := items[|items| - 1];
      Cost(items[..|items| - 1], z) + Quad(Information(last), Minus(z, last.xy))
  }

  ghost function Spread(items: seq<Estimate>): real
    requires Invertible(items)
  {
    if items == [] then 0.0
    else
      var last := items[|items| - 1];
      Spread(items[..|items| - 1]) + Quad(Information(last), last.xy)
  }

  lemma {:induction false} CostExpands(items: seq<Estimate>, z: Vec)
    requires Invertible(items)
    ensures Cost(items, z) == Quad(PrecisionOf(items), z) - 2.0 * Dot(z, WeightedOf(items)) + Spread(items)
  {
    hide Quad, Dot, Apply, Minus, Add, Plus, Information;
    if items == [] {
      ZeroForm(z);
    } else {
      var n := |items| - 1;
      var last := items[n];
      CostExpands(items[..n], z);
      QuadSum(PrecisionOf(items[..n]), Information(last), z);
      QuadOfDifference(Information(last), z, last.xy);
      DotSum(z, WeightedOf(items[..n]), Apply(Information(last), last.xy));
    }
  }

  /**
   Moving away from the fused position costs exactly the squared length of the move under
   the total precision.
   */
  lemma CostAroundTheFusedPosition(items: seq<Estimate>, z: Vec)
    requires Fused(items).Some?
    ensures var best := Fused(items).value.xy;
            Cost(items, z) == Cost(items, best) + Quad(PrecisionOf(items), Minus(z, best))
  {
    var best := Fused(items).value.xy;
    var p := PrecisionOf(items);
    CostExpands(items, z);
    CostExpands(items, best);
    InverseUndoes(p, WeightedOf(items));
    QuadOfDifference(p, z, best);
    assert Quad(p, best) == Dot(best, Apply(p, best));
  }

  lemma OnlyEqualDifferByNothing(u: Vec, v: Vec)
    ensures Minus(u, v) == ORIGIN ==> u == v
  {
    assert u == Vec(u.x, u.y) && v == Vec(v.x, v.y);
  }

  /** The fused position is the one and only minimiser. */
  lemma FusedPositionIsOptimal(items: seq<Estimate>, z: Vec)
    requires AllPositiveDefinite(items) && |items| > 0
    requires Fused(items).Some? && z != Fused(items).value.xy
    ensures Invertible(items) && Cost(items, z) > Cost(items, Fused(items).value.xy)
  {
    hide Cost, Quad, PrecisionOf, WeightedOf, Inverse, PositiveDefinite;
    PositiveIsInvertible(items);
    var best := Fused(items).value.xy;
    CostAroundTheFusedPosition(items, z);
    PrecisionIsPositive(items);
    OnlyEqualDifferByNothing(z, best);
    PositiveForm(PrecisionOf(items), Minus(z, best));
  }

  // ---------------------------------------------------------------- order and grouping

  lemma Regroup(k: Sym, m: Sym, n: Sym, u: Vec, v: Vec, w: Vec)
    ensures Add(k, Add(m, n)) == Add(Add(k, m), n) && Add(k, Add(m, n)) == Add(Add(k, n), m)
    ensures Plus(u, Plus(v, w)) == Plus(Plus(u, v), w) && Plus(u, Plus(v, w)) == Plus(Plus(u, w), v)
    ensures Add(k, ZERO) == k && Plus(u, ORIGIN) == u
  {
  }

  lemma {:induction false} SumsOfParts(a: seq<Estimate>, b: seq<Estimate>)
    requires Invertible(a) && Invertible(b) && Invertible(a + b)
    ensures PrecisionOf(a + b) == Add(PrecisionOf(a), PrecisionOf(b))
    ensures WeightedOf(a + b) == Plus(WeightedOf(a), WeightedOf(b))
  {
    hide Information, Apply, Add, Plus;
    if b == [] {
      assert a + b == a;
      Regroup(PrecisionOf(a), ZERO, ZERO, WeightedOf(a), ORIGIN, ORIGIN);
    } else {
      var n := |b| - 1;
      var last := Information(b[n]);
      SumsOfParts(a, b[..n]);
      assert (a + b)[..|a + b| - 1] == a + b[..n];
      Regroup(PrecisionOf(a), PrecisionOf(b[..n]), last, WeightedOf(a), WeightedOf(b[..n]), Apply(last, b[n].xy));
    }
  }

  lemma SumsOfOne(item: Estimate)
    requires Det(item.covariance) != 0.0
    ensures PrecisionOf([item]) == Information(item)
    ensures WeightedOf([item]) == Apply(Information(item), item.xy)
  {
    hide Information, Apply;
    assert [item][..0] == [];
  }

  /** The sums do not depend on the order of the estimates. */
  lemma {:induction false} SumsIgnoreOrder(a: seq<Estimate>, b: seq<Estimate>)
    requires multiset(a) == multiset(b) && Invertible(a) && Invertible(b)
    ensures PrecisionOf(a) == PrecisionOf(b) && WeightedOf(a) == WeightedOf(b)
    decreases |a|
  {
    hide Information, Apply, Add, Plus;
    if a != [] {
      var n := |a| - 1;
      var x := a[n];
      assert a == a[..n] + [x];
      assert x in multiset(b);
      var i :| 0 <= i < |b| && b[i] == x;
      SameWithoutOne(a, b, i);
      SumsIgnoreOrder(a[..n], b[..i] + b[i + 1..]);
      SumsWithoutOne(b, i);
    } else {
      assert |multiset(a)| == |multiset(b)|;
      assert b == [];
    }
  }

  lemma SameWithoutOne(a: seq<Estimate>, b: seq<Estimate>, i: nat)
    requires multiset(a) == multiset(b) && |a| > 0 && i < |b| && b[i] == a[|a| - 1]
    ensures multiset(a[..|a| - 1]) == multiset(b[..i] + b[i + 1..])
  {
    var x := multiset{b[i]};
    assert a == a[..|a| - 1] + [b[i]];
    assert multiset(a) - x == multiset(a[..|a| - 1]);
    assert b == b[..i] + [b[i]] + b[i + 1..];
    assert multiset(b) - x == multiset(b[..i] + b[i + 1..]);
  }

  lemma SumsWithoutOne(b: seq<Estimate>, i: nat)
    requires Invertible(b) && i < |b|
    ensures Invertible(b[..i] + b[i + 1..])
    ensures PrecisionOf(b) == Add(PrecisionOf(b[..i] + b[i + 1..]), Information(b[i]))
    ensures WeightedOf(b) == Plus(WeightedOf(b[..i] + b[i + 1..]), Apply(Information(b[i]), b[i].xy))
  {
    hide Information, Apply, Add, Plus, PrecisionOf, WeightedOf;
    var before, one, after := b[..i], [b[i]], b[i + 1..];
    assert b == before + (one + after);
    SumsOfParts(before, one + after);
    SumsOfParts(one, after);
    SumsOfParts(before, after);
    SumsOfOne(b[i]);
    Regroup(PrecisionOf(before), PrecisionOf(one), PrecisionOf(after),
      WeightedOf(before), WeightedOf(one), WeightedOf(after));
  }

  lemma OrderDoesNotMatter(a: seq<Estimate>, b: seq<Estimate>)
    requires multiset(a) == multiset(b)
    ensures Fused(a) == Fused(b)
  {
    if Invertible(a) {
      SameInvertible(a, b);
      SumsIgnoreOrder(a, b);
    } else if Invertible(b) {
      SameInvertible(b, a);
    }
  }

  lemma SameInvertible(a: seq<Estimate>, b: seq<Estimate>)
    requires multiset(a) == multiset(b) && Invertible(a)
    ensures Invertible(b)
  {
    forall i | 0 <= i < |b|
      ensures Det(b[i].covariance) != 0.0
    {
      assert b[i] in multiset(a);
    }
  }

  /** What fusing a group puts back into a later fusion is the group's own total. */
  lemma FusedGroupCarriesItsSums(group: seq<Estimate>)
    requires Fused(group).Some?
    ensures Invertible(group)
    ensures var f := Fused(group).value;
            && Det(f.covariance) != 0.0
            && Information(f) == PrecisionOf(group) && Apply(Information(f), f.xy) == WeightedOf(group)
  {
    InverseIsInvolution(PrecisionOf(group));
    InverseUndoes(PrecisionOf(group), WeightedOf(group));
  }

  ghost function Flatten(groups: seq<seq<Estimate>>): seq<Estimate> {
    if groups == [] then [] else Flatten(groups[..|groups| - 1]) + groups[|groups| - 1]
  }

  ghost predicate AllFuse(groups: seq<seq<Estimate>>) {
    forall k :: 0 <= k < |groups| ==> Fused(groups[k]).Some?
  }

  ghost function EachFused(groups: seq<seq<Estimate>>): seq<Estimate>
    requires AllFuse(groups)
  {
    seq(|groups|, k requires 0 <= k < |groups| => Fused(groups[k]).value)
  }

  lemma {:induction false} GroupSums(groups: seq<seq<Estimate>>)
    requires AllFuse(groups)
    ensures Invertible(Flatten(groups)) && Invertible(EachFused(groups))
    ensures PrecisionOf(Flatten(groups)) == PrecisionOf(EachFused(groups))
    ensures WeightedOf(Flatten(groups)) == WeightedOf(EachFused(groups))
  {
    hide Fused, Information, Apply, Add, Plus, Det;
    if groups != [] {
      var n := |groups| - 1;
      var init, last := groups[..n], groups[n];
      GroupSums(init);
      FusedGroupCarriesItsSums(last);
      SumsOfParts(Flatten(init), last);
      assert EachFused(groups)[..n] == EachFused(init);
    }
  }

  /** Fusing in groups, and then the groups' results, is fusing everything at once. */
  lemma GroupingDoesNotMatter(groups: seq<seq<Estimate>>)
    requires AllFuse(groups)
    ensures Fused(EachFused(groups)) == Fused(Flatten(groups))
  {
    hide PrecisionOf, WeightedOf, Apply, Inverse, Det;
    GroupSums(groups);
  }
}
