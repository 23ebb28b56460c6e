/**
 Stable sorting by a total preorder: the meaning of the source's calls to `sorted`.
 */
module Sorting {
  ghost predicate TotalPreorder<T(!new)>(le: (T, T) -> bool) {
    && (forall x, y :: le(x, y) || le(y, x))
    && (forall x, y, z :: le(x, y) && le(y, z) ==> le(x, z))
  }

  ghost predicate SortedBy<T>(s: seq<T>, le: (T, T) -> bool) {
    forall i, j :: 0 <= i < j < |s| ==> le(s[i], s[j])
  }

  /** Places x before the first element it may precede. */
  function Insert<T>(x: T, s: seq<T>, le: (T, T) -> bool): seq<T> {
    if s == [] || le(x, s[0]) then [x] + s else [s[0]] + Insert(x, s[1..], le)
  }

  function Sorted<T>(s: seq<T>, le: (T, T) -> bool): seq<T> {
    if s == [] then [] else Insert(s[0], Sorted(s[1..], le), le)
  }

  lemma {:induction false} InsertKeepsElements<T>(x: T, s: seq<T>, le: (T, T) -> bool)
    ensures multiset(Insert(x, s, le)) == multiset{x} + multiset(s)
  {
    if s == [] || le(x, s[0]) {
    } else {
      InsertKeepsElements(x, s[1..], le);
      assert s == [s[0]] + s[1..];
    }
  }

  lemma {:induction false} SortedKeepsElements<T>(s: seq<T>, le: (T, T) -> bool)
    ensures multiset(Sorted(s, le)) == multiset(s)
  {
    if s != [] {
      SortedKeepsElements(s[1..], le);
      InsertKeepsElements(s[0], Sorted(s[1..], le), le);
      assert s == [s[0]] + s[1..];
    }
  }

  lemma {:induction false} InsertSorts<T(!new)>(x: T, s: seq<T>, le: (T, T) -> bool)
    requires TotalPreorder(le) && SortedBy(s, le)
    ensures SortedBy(Insert(x, s, le), le)
  {
    if s == [] || le(x, s[0]) {
    } else {
      InsertSorts(x, s[1..], le);
      InsertKeepsElements(x, s[1..], le);
      var rest := Insert(x, s[1..], le);
      forall j | 0 <= j < |rest|
        ensures le(s[0], rest[j])
      {
        assert rest[j] in multiset(rest);
        assert rest[j] == x || rest[j] in s[1..];
      }
    }
  }

  lemma {:induction false} SortedSorts<T(!new)>(s: seq<T>, le: (T, T) -> bool)
    requires TotalPreorder(le)
    ensures SortedBy(Sorted(s, le), le)
  {
    if s != [] {
      SortedSorts(s[1..], le);
      InsertSorts(s[0], Sorted(s[1..], le), le);
    }
  }

  lemma SortedMembers<T(!new)>(s: seq<T>, le: (T, T) -> bool)
    ensures forall x :: x in Sorted(s, le) <==> x in s
    ensures |Sorted(s, le)| == |s|
  {
    SortedKeepsElements(s, le);
    forall x
      ensures x in Sorted(s, le) <==> x in s
    {
      assert x in multiset(s) <==> x in s;
      assert x in multiset(Sorted(s, le)) <==> x in Sorted(s, le);
    }
    assert |multiset(s)| == |s| && |multiset(Sorted(s, le))| == |Sorted(s, le)|;
  }

  /** A list already in order is left as it is. */
  lemma {:induction false} SortedIsIdentity<T(!new)>(s: seq<T>, le: (T, T) -> bool)
    requires SortedBy(s, le)
    ensures Sorted(s, le) == s
  {
    if s != [] {
      SortedIsIdentity(s[1..], le);
      if |s| > 1 {
        assert le(s[0], s[1]);
      }
    }
  }

  /** Sorted without ties. */
  ghost predicate StrictlySorted<T>(s: seq<T>, le: (T, T) -> bool) {
    forall i, j :: 0 <= i < j < |s| ==> le(s[i], s[j]) && !le(s[j], s[i])
  }

  /** There is only one way to sort without ties. */
  lemma {:induction false} StrictlySortedIsUnique<T(!new)>(a: seq<T>, b: seq<T>, le: (T, T) -> bool)
    requires StrictlySorted(a, le) && StrictlySorted(b, le)
    requires forall x :: x in a <==> x in b
    ensures a == b
  {
    if b != [] {
      assert b[0] in a;
    }
    if a != [] {
      assert a[0] in b;
      assert a[0] == b[0];
      forall x
        ensures x in a[1..] <==> x in b[1..]
      {
        assert x in a <==> x == a[0] || x in a[1..];
        assert x in b <==> x == b[0] || x in b[1..];
      }
      StrictlySortedIsUnique(a[1..], b[1..], le);
    }
  }

  lemma {:induction false} InsertBeforeLast<T(!new)>(x: T, s: seq<T>, last: T, le: (T, T) -> bool)
    requires le(x, last)
    ensures Insert(x, s + [last], le) == Insert(x, s, le) + [last]
  {
    if s != [] {
      assert (s + [last])[1..] == s[1..] + [last];
      InsertBeforeLast(x, s[1..], last, le);
    }
  }

  /** An element that nothing has to follow is sorted to the end. */
  lemma {:induction false} SortedAppend<T(!new)>(s: seq<T>, last: T, le: (T, T) -> bool)
    requires forall x :: x in s ==> le(x, last)
    ensures Sorted(s + [last], le) == Sorted(s, le) + [last]
  {
    if s != [] {
      assert (s + [last])[1..] == s[1..] + [last];
      SortedAppend(s[1..], last, le);
      InsertBeforeLast(s[0], Sorted(s[1..], le), last, le);
    }
  }
}
