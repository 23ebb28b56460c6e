/** Filtered lists, and what re-ordering the input does to them. */
module Filtering {
  function Filter<T>(s: seq<T>, p: T -> bool): seq<T> {
    if s == [] then []
    else
      var n := |s| - 1;
      Filter(s[..n], p) + if p(s[n]) then [s[n]] else []
  }

  /** As many are kept as there are places that pass. */
  lemma {:induction false} FilterCount<T>(s: seq<T>, p: T -> bool)
    ensures |Filter(s, p)| == |Places(s, p)|
  {
    if s == [] {
      assert Places(s, p) == {};
    } else {
      var n := |s| - 1;
      FilterCount(s[..n], p);
      assert Places(s, p) == Places(s[..n], p) + if p(s[n]) then {n} else {};
    }
  }

  ghost function Places<T>(s: seq<T>, p: T -> bool): set<int> {
    set k | 0 <= k < |s| && p(s[k])
  }

  lemma {:induction false} FilterTwice<T>(s: seq<T>, p: T -> bool, q: T -> bool, both: T -> bool)
    requires forall x :: x in s ==> both(x) == (p(x) && q(x))
    ensures Filter(Filter(s, p), q) == Filter(s, both)
  {
    if s != [] {
      var n := |s| - 1;
      FilterTwice(s[..n], p, q, both);
      assert s[n] in s && Filter(s, both) == Filter(s[..n], both) + if both(s[n]) then [s[n]] else [];
      if p(s[n]) {
        FilterAppend(Filter(s[..n], p), s[n], q);
      } else {
        assert Filter(s, p) == Filter(s[..n], p) && Filter(s, both) == Filter(s[..n], both);
      }
    }
  }

  /** The first that is kept is the first that passes. */
  lemma {:induction false} FilterFirst<T>(s: seq<T>, p: T -> bool) returns (i: nat)
    requires Filter(s, p) != []
    ensures i < |s| && Filter(s, p)[0] == s[i] && p(s[i]) && forall k :: 0 <= k < i ==> !p(s[k])
  {
    var n := |s| - 1;
    if Filter(s[..n], p) != [] {
      i := FilterFirst(s[..n], p);
    } else {
      i := n;
      forall k | 0 <= k < n
        ensures !p(s[k])
      {
        FilterMembers(s[..n], p, s[k]);
        assert s[..n][k] == s[k];
      }
    }
  }

  lemma FilterAppend<T>(s: seq<T>, x: T, p: T -> bool)
    ensures Filter(s + [x], p) == Filter(s, p) + if p(x) then [x] else []
  {
    assert (s + [x])[..|s|] == s;
  }

  lemma {:induction false} FilterMembers<T>(s: seq<T>, p: T -> bool, x: T)
    ensures x in Filter(s, p) <==> x in s && p(x)
  {
    if s != [] {
      var n := |s| - 1;
      FilterMembers(s[..n], p, x);
      assert x in s <==> x in s[..n] || x == s[n];
    }
  }

  lemma {:induction false} FilterCounts<T>(s: seq<T>, p: T -> bool, x: T)
    ensures multiset(Filter(s, p))[x] == if p(x) then multiset(s)[x] else 0
  {
    if s != [] {
      var n := |s| - 1;
      FilterCounts(s[..n], p, x);
      assert s == s[..n] + [s[n]];
    }
  }

  /** Re-ordering the input only re-orders what is kept, so as many are kept. */
  lemma FilterIgnoresOrder<T(!new)>(a: seq<T>, b: seq<T>, p: T -> bool)
    requires multiset(a) == multiset(b)
    ensures multiset(Filter(a, p)) == multiset(Filter(b, p))
    ensures |Filter(a, p)| == |Filter(b, p)|
  {
    forall x
      ensures multiset(Filter(a, p))[x] == multiset(Filter(b, p))[x]
    {
      FilterCounts(a, p, x);
      FilterCounts(b, p, x);
    }
    assert multiset(Filter(a, p)) == multiset(Filter(b, p));
    assert |multiset(Filter(a, p))| == |Filter(a, p)| && |multiset(Filter(b, p))| == |Filter(b, p)|;
  }

  lemma SameMembers<T>(a: seq<T>, b: seq<T>, x: T)
    requires multiset(a) == multiset(b)
    ensures x in a <==> x in b
  {
    assert x in a <==> x in multiset(a);
    assert x in b <==> x in multiset(b);
  }

  ghost predicate Distinct<T(!new)>(s: seq<T>) {
    forall i, j :: 0 <= i < j < |s| ==> s[i] != s[j]
  }

  lemma {:induction false} DistinctCounts<T(!new)>(s: seq<T>, x: T)
    requires Distinct(s)
    ensures multiset(s)[x] <= 1
  {
    if s != [] {
      var n := |s| - 1;
      DistinctCounts(s[..n], x);
      assert s == s[..n] + [s[n]];
      assert s[n] !in s[..n];
      assert multiset(s[..n])[s[n]] == 0;
    }
  }

  /** Re-ordering a list keeps its entries distinct. */
  lemma DistinctIgnoresOrder<T(!new)>(a: seq<T>, b: seq<T>)
    requires Distinct(a) && multiset(a) == multiset(b)
    ensures Distinct(b)
  {
    forall i, j | 0 <= i < j < |b|
      ensures b[i] != b[j]
    {
      DistinctCounts(a, b[i]);
      assert b == b[..j] + b[j..];
      assert b[i] in b[..j] && b[j] in b[j..];
      assert multiset(b)[b[i]] == multiset(b[..j])[b[i]] + multiset(b[j..])[b[i]];
    }
  }

  lemma {:induction false} FilterKeepsDistinct<T(!new)>(s: seq<T>, p: T -> bool)
    requires Distinct(s)
    ensures Distinct(Filter(s, p))
  {
    if s != [] {
      var n := |s| - 1;
      FilterKeepsDistinct(s[..n], p);
      FilterMembers(s[..n], p, s[n]);
    }
  }
}
