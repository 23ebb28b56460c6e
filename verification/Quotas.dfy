/**
 Proportional integer quotas by the largest-remainder rule.  The order in which equal
 remainders are served is left open, as it is by an unstable sort.
 */
module Quotas {
  import opened Counting
  import opened Filtering
  import opened RealAlgebra
  import opened Sorting

  function SumReal(s: seq<real>): real {
    if s == [] then 0.0 else SumReal(s[..|s| - 1]) + s[|s| - 1]
  }

  function SumInt(s: seq<int>): int {
    if s == [] then 0 else SumInt(s[..|s| - 1]) + s[|s| - 1]
  }

  function Fraction(x: real): real { x - x.Floor as real }

  function ShareOf(total: int, weight: real, sum: real): real
    requires sum != 0.0
  {
    total as real * weight / sum
  }

  /** The exact shares of the total. */
  function Shares(total: int, weights: seq<real>): (e: seq<real>)
    requires weights == [] || SumReal(weights) != 0.0
    ensures |e| == |weights|
  {
    seq(|weights|, i requires 0 <= i < |weights| => ShareOf(total, weights[i], SumReal(weights)))
  }

  function Floors(e: seq<real>): (f: seq<int>)
    ensures |f| == |e|
  {
    seq(|e|, i requires 0 <= i < |e| => e[i].Floor)
  }

  /** The shares that are not whole numbers. */
  ghost function Fractional(e: seq<real>): set<nat> {
    if e == [] then {}
    else
      var n := |e| - 1;
      Fractional(e[..n]) + if Fraction(e[n]) > 0.0 then {n} else {}
  }

  /**
   Every quota is its share rounded down, or rounded up if the share is not whole, and
   none is rounded down while a share with a smaller remainder is rounded up.
   */
  ghost predicate Apportioned(e: seq<real>, q: seq<int>) {
    && |q| == |e|
    && (forall i :: 0 <= i < |e| ==> q[i] == e[i].Floor || (q[i] == e[i].Floor + 1 && Fraction(e[i]) > 0.0))
    && (forall i, j :: 0 <= i < |e| && 0 <= j < |e| && q[i] > e[i].Floor && q[j] == e[j].Floor ==>
          Fraction(e[j]) <= Fraction(e[i]))
  }

  // ---------------------------------------------------------------- sums

  lemma {:induction false} SumScaled(s: seq<real>, t: seq<real>, k: real)
    requires |t| == |s| && forall i :: 0 <= i < |s| ==> t[i] == Scaled(k, s[i])
    ensures SumReal(t) == Scaled(k, SumReal(s))
  {
    if s != [] {
      var n := |s| - 1;
      SumScaled(s[..n], t[..n], k);
      assert Scaled(k, SumReal(s[..n]) + s[n]) == Scaled(k, SumReal(s[..n])) + Scaled(k, s[n]);
    } else {
      assert Scaled(k, 0.0) == 0.0;
    }
  }

  function Scaled(k: real, x: real): real { k * x }

  lemma ShareIsScaled(total: real, x: real, sum: real)
    requires sum != 0.0
    ensures total * x / sum == Scaled(total / sum, x)
  {
  }

  lemma ScaledBack(total: real, sum: real)
    requires sum != 0.0
    ensures Scaled(total / sum, sum) == total
  {
  }

  lemma SharesSumToTotal(total: int, weights: seq<real>)
    requires weights != [] && SumReal(weights) != 0.0
    ensures SumReal(Shares(total, weights)) == total as real
  {
    var sum := SumReal(weights);
    var k := total as real / sum;
    forall i | 0 <= i < |weights|
      ensures Shares(total, weights)[i] == Scaled(k, weights[i])
    {
      ShareIsScaled(total as real, weights[i], sum);
    }
    hide SumReal, Scaled;
    SumScaled(weights, Shares(total, weights), k);
    ScaledBack(total as real, sum);
  }

  lemma FloorIsBelow(x: real)
    ensures 0.0 <= Fraction(x) < 1.0
  {
  }

  /** Rounding every share down loses at most one unit for each share that is not whole. */
  lemma {:induction false} RoundingLoss(e: seq<real>)
    ensures SumInt(Floors(e)) as real <= SumReal(e) <= (SumInt(Floors(e)) + |Fractional(e)|) as real
    ensures forall i: nat :: i in Fractional(e) <==> i < |e| && Fraction(e[i]) > 0.0
  {
    if e != [] {
      var n := |e| - 1;
      RoundingLoss(e[..n]);
      assert Floors(e)[..n] == Floors(e[..n]);
      FloorIsBelow(e[n]);
      assert n !in Fractional(e[..n]);
    }
  }

  lemma {:induction false} SumOfIncrement(s: seq<int>, i: nat)
    requires i < |s|
    ensures SumInt(s[i := s[i] + 1]) == SumInt(s) + 1
  {
    var n := |s| - 1;
    var t := s[i := s[i] + 1];
    if i < n {
      assert t[..n] == s[..n][i := s[i] + 1];
      SumOfIncrement(s[..n], i);
    } else {
      assert t[..n] == s[..n];
    }
  }

  // ---------------------------------------------------------------- serving the largest remainders

  /** All indices, largest remainder first. */
  ghost predicate ByRemainder(e: seq<real>, order: seq<nat>) {
    && |order| == |e| && NoRepeats(order)
    && (forall k :: 0 <= k < |order| ==> order[k] < |e|)
    && (forall k, m :: 0 <= k < m < |order| ==> Remainder(e, order[m]) <= Remainder(e, order[k]))
  }

  function Remainder(e: seq<real>, i: nat): real {
    if i < |e| then Fraction(e[i]) else 0.0
  }

  method RemainderOrder(e: seq<real>) returns (order: seq<nat>)
    ensures ByRemainder(e, order)
  {
    hide Fraction;
    var le := (i: nat, j: nat) => Remainder(e, j) <= Remainder(e, i);
    var indices: seq<nat> := seq(|e|, i requires 0 <= i < |e| => i);
    order := Sorted(indices, le);
    SortedSorts(indices, le);
    SortedMembers(indices, le);
    SortedKeepsElements(indices, le);
    DistinctIgnoresOrder(indices, order);
    forall k | 0 <= k < |order|
      ensures order[k] < |e|
    {
      assert order[k] in indices;
    }
  }

  lemma EveryIndexIsOrdered(e: seq<real>, order: seq<nat>, i: nat)
    requires ByRemainder(e, order) && i < |e|
    ensures i in order
  {
    ValuesOfCount(order);
    BelowCount(|e|);
    forall v | v in ValuesOf(order)
      ensures v in Below(|e|)
    {
      ValuesOfMembers(order, v);
    }
    SubsetCount(ValuesOf(order), Below(|e|));
    ValuesOfMembers(order, i);
  }

  /** There are at least as many shares with a remainder as units to hand out. */
  lemma ServedHaveRemainders(e: seq<real>, order: seq<nat>, k: nat)
    requires ByRemainder(e, order) && k < |order| && k < |Fractional(e)|
    ensures Fraction(e[order[k]]) > 0.0
  {
    hide Fraction;
    FloorIsBelow(e[order[k]]);
    if Fraction(e[order[k]]) <= 0.0 {
      RoundingLoss(e);
      var first := order[..k];
      forall i | i in Fractional(e)
        ensures i in ValuesOf(first)
      {
        EveryIndexIsOrdered(e, order, i);
        var m: nat :| m < |order| && order[m] == i;
        assert Remainder(e, order[m]) > Remainder(e, order[k]);
        assert m < k;
        assert first[m] == i;
        ValuesOfMembers(first, i);
      }
      ValuesOfCount(first);
      SubsetCount(Fractional(e), ValuesOf(first));
    }
  }

  /** The quotas once the first k of the order have got one unit more. */
  ghost predicate Bumped(e: seq<real>, order: seq<nat>, k: nat, q: seq<int>)
    requires k <= |order|
  {
    && |q| == |e|
    && forall i :: 0 <= i < |e| ==> q[i] == e[i].Floor + if i in order[..k] then 1 else 0
  }

  lemma BumpOne(e: seq<real>, order: seq<nat>, k: nat, q: seq<int>)
    requires ByRemainder(e, order) && k < |order| && Bumped(e, order, k, q)
    ensures var i := order[k];
            Bumped(e, order, k + 1, q[i := q[i] + 1])
  {
    assert order[..k + 1] == order[..k] + [order[k]];
    assert order[k] !in order[..k];
  }

  lemma BumpedIsApportioned(e: seq<real>, order: seq<nat>, k: nat, q: seq<int>)
    requires ByRemainder(e, order) && k <= |order| && k <= |Fractional(e)| && Bumped(e, order, k, q)
    ensures Apportioned(e, q)
  {
    hide Fraction;
    forall i: nat | i < |e| && i in order[..k]
      ensures Fraction(e[i]) > 0.0
    {
      var m: nat :| m < k && order[m] == i;
      ServedHaveRemainders(e, order, m);
    }
    forall i: nat, j: nat | i < |e| && j < |e| && i in order[..k] && j !in order[..k]
      ensures Fraction(e[j]) <= Fraction(e[i])
    {
      ServedFirst(e, order, k, i, j);
    }
  }

  lemma ServedFirst(e: seq<real>, order: seq<nat>, k: nat, i: nat, j: nat)
    requires ByRemainder(e, order) && k <= |order| && i < |e| && j < |e|
    requires i in order[..k] && j !in order[..k]
    ensures Fraction(e[j]) <= Fraction(e[i])
  {
    hide Fraction;
    EveryIndexIsOrdered(e, order, j);
    var a: nat :| a < k && order[a] == i;
    assert order == order[..k] + order[k..];
    var c: nat :| c < |order[k..]| && order[k..][c] == j;
    assert Remainder(e, order[k + c]) <= Remainder(e, order[a]);
  }

  /** Whole-number quotas for a total, in proportion to the weights. */
  method LargestRemainder(total: int, weights: seq<real>) returns (q: seq<int>)
    requires weights == [] || SumReal(weights) != 0.0
    ensures Apportioned(Shares(total, weights), q)
    ensures weights != [] ==> SumInt(q) == total
  {
    hide Fraction, Apportioned, ByRemainder, SumReal, SumInt, Bumped;
    var e := Shares(total, weights);
    if weights == [] {
      q := [];
      NoShares(e);
      return;
    }
    var floors := Floors(e);
    var base := ArrayOf(floors);
    var order := RemainderOrder(e);
    UnitsToHandOut(total, weights, order);
    var extra: nat := total - SumInt(floors);
    for k := 0 to extra
      invariant base.Length == |e| && Bumped(e, order, k, base[..])
      invariant SumInt(base[..]) == SumInt(floors) + k
    {
      ghost var was := base[..];
      var i := order[k];
      InRange(e, order, k);
      BumpOne(e, order, k, was);
      SumOfIncrement(was, i);
      base[i] := base[i] + 1;
      assert base[..] == was[i := was[i] + 1];
    }
    BumpedIsApportioned(e, order, extra, base[..]);
    q := base[..];
  }

  method ArrayOf(s: seq<int>) returns (a: array<int>)
    ensures fresh(a) && a[..] == s
  {
    a := new int[|s|](i requires 0 <= i < |s| => s[i]);
    assert a[..] == s;
  }

  lemma NoShares(e: seq<real>)
    requires e == []
    ensures Apportioned(e, [])
  {
  }

  lemma InRange(e: seq<real>, order: seq<nat>, k: nat)
    requires ByRemainder(e, order) && k < |order|
    ensures order[k] < |e|
  {
  }

  lemma UnitsToHandOut(total: int, weights: seq<real>, order: seq<nat>)
    requires weights != [] && SumReal(weights) != 0.0
    requires ByRemainder(Shares(total, weights), order)
    ensures var e := Shares(total, weights);
            && 0 <= total - SumInt(Floors(e)) <= |order|
            && total - SumInt(Floors(e)) <= |Fractional(e)|
            && Bumped(e, order, 0, Floors(e))
  {
    hide SumReal, SumInt, Fraction, Shares;
    var e := Shares(total, weights);
    SharesSumToTotal(total, weights);
    RoundingLoss(e);
    FractionalCount(e);
  }

  lemma {:induction false} FractionalCount(e: seq<real>)
    ensures |Fractional(e)| <= |e|
  {
    hide Fraction;
    if e != [] {
      FractionalCount(e[..|e| - 1]);
    }
  }

  // ---------------------------------------------------------------- what the rule promises

  /** No quota is more than one unit off its share, and whole shares are met exactly. */
  lemma QuotaIsFloorOrCeiling(e: seq<real>, q: seq<int>, i: nat)
    requires Apportioned(e, q) && i < |e|
    ensures e[i] - 1.0 < q[i] as real < e[i] + 1.0
    ensures e[i] == e[i].Floor as real ==> q[i] as real == e[i]
  {
  }

  lemma ShareTimesSum(total: int, weight: real, sum: real)
    requires sum != 0.0
    ensures ShareOf(total, weight, sum) * sum == total as real * weight
    ensures total == 0 ==> ShareOf(total, weight, sum) == 0.0
  {
  }

  lemma HeavierShare(total: int, a: real, b: real, sum: real)
    requires total >= 0 && a > b && sum > 0.0
    ensures ShareOf(total, a, sum) > ShareOf(total, b, sum) || (ShareOf(total, a, sum) == 0.0 && ShareOf(total, b, sum) == 0.0)
  {
    hide ShareOf;
    ShareTimesSum(total, a, sum);
    ShareTimesSum(total, b, sum);
    if total > 0 {
      LargerFactor(total as real, a, b, sum, ShareOf(total, a, sum), ShareOf(total, b, sum));
    }
  }

  lemma LargerFactor(t: real, a: real, b: real, sum: real, p: real, r: real)
    requires t > 0.0 && a > b && sum > 0.0 && p * sum == t * a && r * sum == t * b
    ensures p > r
  {
    var d := t * (a - b);
    PositiveProduct(t, a - b, d);
    assert d == t * a - t * b;
    assert d == sum * (p - r);
    PositiveFactor(sum, p - r, d);
  }

  /** A heavier weight never gets less, however ties are broken. */
  lemma HeavierNeverGetsLess(total: int, weights: seq<real>, q: seq<int>, i: nat, j: nat)
    requires total >= 0 && weights != [] && SumReal(weights) > 0.0
    requires Apportioned(Shares(total, weights), q)
    requires i < |weights| && j < |weights| && weights[i] > weights[j]
    ensures q[i] >= q[j]
  {
    hide SumReal, ShareOf;
    var e := Shares(total, weights);
    HeavierShare(total, weights[i], weights[j], SumReal(weights));
    if e[i].Floor == e[j].Floor {
      assert Fraction(e[i]) >= Fraction(e[j]);
    } else {
      assert e[i].Floor > e[j].Floor;
    }
  }

  /** Non-negative weights get non-negative quotas. */
  lemma QuotasAreNatural(total: nat, weights: seq<real>, q: seq<int>)
    requires weights == [] || SumReal(weights) > 0.0
    requires forall i :: 0 <= i < |weights| ==> weights[i] >= 0.0
    requires Apportioned(Shares(total, weights), q)
    ensures forall i :: 0 <= i < |q| ==> q[i] >= 0
  {
    hide SumReal, ShareOf, Fraction;
    forall i | 0 <= i < |q|
      ensures q[i] >= 0
    {
      NaturalShare(total, weights[i], SumReal(weights));
    }
  }

  lemma NaturalShare(total: nat, weight: real, sum: real)
    requires weight >= 0.0 && sum > 0.0
    ensures ShareOf(total, weight, sum) >= 0.0
  {
    var share := ShareOf(total, weight, sum);
    ShareTimesSum(total, weight, sum);
    hide ShareOf;
    NonNegativeProduct(total as real, weight, share * sum);
    if share < 0.0 {
      PositiveProduct(-share, sum, -share * sum);
    }
  }

  // ---------------------------------------------------------------- no other quotas are closer

  function Distance(x: real, y: real): real { if x <= y then y - x else x - y }

  /** The summed distance of whole numbers from the shares. */
  function Misfit(e: seq<real>, q: seq<int>): real
    requires |q| == |e|
  {
    if e == [] then 0.0
    else
      var n := |e| - 1;
      Misfit(e[..n], q[..n]) + Distance(q[n] as real, e[n])
  }

  /** A remainder between those rounded down and those rounded up. */
  ghost predicate Divides(e: seq<real>, q: seq<int>, theta: real)
    requires |q| == |e|
  {
    && 0.0 <= theta <= 1.0
    && forall i :: 0 <= i < |e| ==>
         (q[i] == e[i].Floor && Fraction(e[i]) <= theta) || (q[i] == e[i].Floor + 1 && Fraction(e[i]) >= theta)
  }

  lemma SomeRemainderDivides(e: seq<real>, q: seq<int>) returns (theta: real)
    requires Apportioned(e, q)
    ensures Divides(e, q, theta)
  {
    if down: nat :| down < |e| && q[down] == e[down].Floor {
      theta := LargestRoundedDown(e, q, down);
    } else {
      theta := 0.0;
    }
    forall i | 0 <= i < |e|
      ensures 0.0 <= Fraction(e[i]) < 1.0
    {
      FloorIsBelow(e[i]);
    }
    hide Fraction;
  }

  lemma LargestRoundedDown(e: seq<real>, q: seq<int>, down: nat) returns (theta: real)
    requires Apportioned(e, q) && down < |e| && q[down] == e[down].Floor
    ensures 0.0 <= theta <= 1.0 && exists j: nat :: j < |e| && q[j] == e[j].Floor && Fraction(e[j]) == theta
    ensures forall i: nat :: i < |e| && q[i] == e[i].Floor ==> Fraction(e[i]) <= theta
  {
    var best: nat := down;
    var k := 0;
    while k < |e|
      invariant 0 <= k <= |e| && best < |e| && q[best] == e[best].Floor
      invariant forall i: nat :: i < k && q[i] == e[i].Floor ==> Fraction(e[i]) <= Fraction(e[best])
    {
      if q[k] == e[k].Floor && Fraction(e[k]) > Fraction(e[best]) {
        best := k;
      }
      k := k + 1;
    }
    theta := Fraction(e[best]);
    FloorIsBelow(e[best]);
  }

  /** Moving one quota by d changes its distance by no less than (1 - 2 theta) * d. */
  lemma MovingCosts(x: real, f: int, up: bool, theta: real, p: int)
    requires f == x.Floor && 0.0 <= theta <= 1.0
    requires if up then x - f as real >= theta else x - f as real <= theta
    ensures var q := if up then f + 1 else f;
            Distance(p as real, x) - Distance(q as real, x) >= Scaled(1.0 - 2.0 * theta, (p - q) as real)
  {
    var q := if up then f + 1 else f;
    var d, slope := p - q, 1.0 - 2.0 * theta;
    if d >= 1 {
      Steepness(d - 1, slope);
      assert Scaled(slope, d as real) == Scaled(slope, (d - 1) as real) + slope;
    } else if d <= -1 {
      Steepness(-d - 1, -slope);
      assert Scaled(slope, d as real) == Scaled(-slope, (-d - 1) as real) - slope;
    } else {
      assert Scaled(slope, 0.0) == 0.0;
    }
  }

  lemma Steepness(d: nat, slope: real)
    requires slope <= 1.0
    ensures Scaled(slope, d as real) <= d as real
  {
    var rest := 1.0 - slope;
    NonNegativeProduct(rest, d as real, d as real - Scaled(slope, d as real));
  }

  lemma {:induction false} MisfitGrows(e: seq<real>, q: seq<int>, p: seq<int>, theta: real)
    requires |q| == |p| == |e| && Divides(e, q, theta)
    ensures Misfit(e, p) - Misfit(e, q) >= Scaled(1.0 - 2.0 * theta, (SumInt(p) - SumInt(q)) as real)
  {
    hide Distance;
    var slope := 1.0 - 2.0 * theta;
    if e == [] {
      assert Scaled(slope, 0.0) == 0.0;
    } else {
      var n := |e| - 1;
      MisfitGrows(e[..n], q[..n], p[..n], theta);
      MovingCosts(e[n], e[n].Floor, q[n] != e[n].Floor, theta, p[n]);
      var rest, last := (SumInt(p[..n]) - SumInt(q[..n])) as real, (p[n] - q[n]) as real;
      ScaledSum(slope, rest, last);
    }
  }

  lemma ScaledSum(k: real, x: real, y: real)
    ensures Scaled(k, x + y) == Scaled(k, x) + Scaled(k, y)
  {
  }

  /** No whole numbers with the same sum are closer to the shares in all. */
  lemma NoQuotasAreCloser(e: seq<real>, q: seq<int>, p: seq<int>)
    requires Apportioned(e, q) && |p| == |e| && SumInt(p) == SumInt(q)
    ensures Misfit(e, q) <= Misfit(e, p)
  {
    hide Misfit, SumInt;
    var theta := SomeRemainderDivides(e, q);
    MisfitGrows(e, q, p, theta);
    assert Scaled(1.0 - 2.0 * theta, 0.0) == 0.0;
  }
}
