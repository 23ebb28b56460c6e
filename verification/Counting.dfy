/**
 Counting arguments: distinct values, index ranges and the pigeonhole principle.
 */
module Counting {
  ghost function ValuesOf(s: seq<nat>): set<nat> {
    if s == [] then {} else ValuesOf(s[..|s| - 1]) + {s[|s| - 1]}
  }

  ghost predicate NoRepeats(s: seq<nat>) {
    forall i, j :: 0 <= i < j < |s| ==> s[i] != s[j]
  }

  lemma {:induction false} ValuesOfMembers(s: seq<nat>, v: nat)
    ensures v in ValuesOf(s) <==> v in s
  {
    if s != [] {
      ValuesOfMembers(s[..|s| - 1], v);
      assert s == s[..|s| - 1] + [s[|s| - 1]];
    }
  }

  /** A list has as many values as entries exactly when none is repeated. */
  lemma {:induction false} ValuesOfCount(s: seq<nat>)
    ensures |ValuesOf(s)| <= |s|
    ensures |ValuesOf(s)| == |s| <==> NoRepeats(s)
  {
    if s != [] {
      var n := |s| - 1;
      var init := s[..n];
      ValuesOfCount(init);
      ValuesOfMembers(init, s[n]);
      if |ValuesOf(s)| == |s| {
        forall i, j | 0 <= i < j < |s|
          ensures s[i] != s[j]
        {
          assert init[i] == s[i];
          assert j < n ==> init[j] == s[j];
        }
      }
      if NoRepeats(s) {
        assert forall i :: 0 <= i < n ==> init[i] == s[i];
      }
    }
  }

  ghost function Below(n: nat): set<nat> {
    if n == 0 then {} else Below(n - 1) + {n - 1}
  }

  lemma {:induction false} BelowCount(n: nat)
    ensures |Below(n)| == n
    ensures forall v: nat :: v in Below(n) <==> v < n
  {
    if n > 0 {
      BelowCount(n - 1);
    }
  }

  lemma SubsetCount(a: set<nat>, b: set<nat>)
    requires a <= b
    ensures |a| <= |b|
    ensures |a| == |b| ==> a == b
  {
    assert b == a + (b - a);
  }

  /** More entries than possible values: two entries agree. */
  lemma Pigeonhole(s: seq<nat>, n: nat) returns (i: nat, j: nat)
    requires |s| > n && forall k :: 0 <= k < |s| ==> s[k] < n
    ensures i < j < |s| && s[i] == s[j]
  {
    ValuesOfCount(s);
    BelowCount(n);
    forall v | v in ValuesOf(s)
      ensures v in Below(n)
    {
      ValuesOfMembers(s, v);
    }
    SubsetCount(ValuesOf(s), Below(n));
    i, j :| 0 <= i < j < |s| && s[i] == s[j];
  }

  /** Fewer entries than indices: some index is not listed. */
  lemma SomeIndexMissing(s: seq<nat>, n: nat) returns (v: nat)
    requires |s| < n
    ensures v < n && v !in s
  {
    ValuesOfCount(s);
    BelowCount(n);
    if Below(n) <= ValuesOf(s) {
      SubsetCount(Below(n), ValuesOf(s));
    }
    v :| v in Below(n) && v !in ValuesOf(s);
    ValuesOfMembers(s, v);
  }
}
