/**
 The bottleneck of a maximum spanning tree over the camera overlap graph: Kruskal's
 algorithm over a union-find forest with path halving.  Cameras are 0..n-1.
 */
module Bottleneck {
  import opened Counting
  import opened Sorting

  datatype Edge = Edge(a: nat, b: nat, area: real)

  // ---------------------------------------------------------------- the graph

  ghost predicate Linked(edges: set<Edge>, u: nat, v: nat) {
    exists e :: e in edges && ((e.a == u && e.b == v) || (e.a == v && e.b == u))
  }

  ghost predicate Trail(edges: set<Edge>, p: seq<nat>) {
    |p| > 0 && forall i {:trigger p[i]} :: 0 <= i < |p| - 1 ==> Linked(edges, p[i], p[i + 1])
  }

  ghost predicate Connected(edges: set<Edge>, u: nat, v: nat) {
    exists p :: Trail(edges, p) && p[0] == u && p[|p| - 1] == v
  }

  ghost predicate AllConnected(n: nat, edges: set<Edge>) {
    forall u, v :: 0 <= u < n && 0 <= v < n ==> Connected(edges, u, v)
  }

  ghost function AtLeast(edges: set<Edge>, t: real): set<Edge> {
    set e | e in edges && e.area >= t
  }

  lemma ConnectedReflexive(edges: set<Edge>, u: nat)
    ensures Connected(edges, u, u)
  {
    assert Trail(edges, [u]);
  }

  lemma ConnectedEdge(edges: set<Edge>, e: Edge)
    requires e in edges
    ensures Connected(edges, e.a, e.b)
  {
    assert Linked(edges, e.a, e.b);
    assert Trail(edges, [e.a, e.b]);
  }

  lemma LinkedSymmetric(edges: set<Edge>, u: nat, v: nat)
    requires Linked(edges, u, v)
    ensures Linked(edges, v, u)
  {
  }

  lemma ConnectedSymmetric(edges: set<Edge>, u: nat, v: nat)
    requires Connected(edges, u, v)
    ensures Connected(edges, v, u)
  {
    hide Linked;
    var p :| Trail(edges, p) && p[0] == u && p[|p| - 1] == v;
    var q := seq(|p|, i requires 0 <= i < |p| => p[|p| - 1 - i]);
    forall i {:trigger q[i]} | 0 <= i < |q| - 1
      ensures Linked(edges, q[i], q[i + 1])
    {
      var k := |p| - 2 - i;
      assert p[k] == q[i + 1] && p[k + 1] == q[i];
      LinkedSymmetric(edges, p[k], p[k + 1]);
    }
    assert Trail(edges, q);
  }

  lemma ConnectedTransitive(edges: set<Edge>, u: nat, v: nat, w: nat)
    requires Connected(edges, u, v) && Connected(edges, v, w)
    ensures Connected(edges, u, w)
  {
    var p :| Trail(edges, p) && p[0] == u && p[|p| - 1] == v;
    var q :| Trail(edges, q) && q[0] == v && q[|q| - 1] == w;
    var r := p + q[1..];
    forall i {:trigger r[i]} | 0 <= i < |r| - 1
      ensures Linked(edges, r[i], r[i + 1])
    {
      if i < |p| - 1 {
        assert r[i] == p[i];
      } else {
        assert r[i] == q[i - |p| + 1];
      }
    }
    assert Trail(edges, r);
  }

  lemma ConnectedMonotone(edges: set<Edge>, more: set<Edge>, u: nat, v: nat)
    requires Connected(edges, u, v) && edges <= more
    ensures Connected(more, u, v)
  {
    var p :| Trail(edges, p) && p[0] == u && p[|p| - 1] == v;
    assert Trail(more, p);
  }

  // ---------------------------------------------------------------- the forest

  /** Parent pointers whose depth falls along every edge, so that each node has a root. */
  ghost predicate IsForest(parent: seq<nat>, depth: seq<nat>) {
    && |parent| == |depth|
    && forall u {:trigger parent[u]} :: 0 <= u < |parent| ==>
         parent[u] < |parent| && (parent[u] != u ==> depth[parent[u]] < depth[u])
  }

  /** The node at which following parents from u ends. */
  ghost function Root(parent: seq<nat>, depth: seq<nat>, u: nat): (r: nat)
    requires IsForest(parent, depth) && u < |parent|
    ensures r < |parent| && parent[r] == r
    decreases depth[u]
  {
    if parent[u] == u then u else Root(parent, depth, parent[u])
  }

  /** Pointing x at its grandparent changes no node's root. */
  lemma {:induction false} HalvingKeepsRoots(parent: seq<nat>, depth: seq<nat>, x: nat, v: nat)
    requires IsForest(parent, depth) && x < |parent| && v < |parent|
    ensures var halved := parent[x := parent[parent[x]]];
            IsForest(halved, depth) && Root(halved, depth, v) == Root(parent, depth, v)
    decreases depth[v]
  {
    var halved := parent[x := parent[parent[x]]];
    assert IsForest(halved, depth) by {
      assert parent[parent[x]] == parent[parent[x]];
    }
    if parent[v] != v {
      HalvingKeepsRoots(parent, depth, x, parent[v]);
      if v == x && parent[parent[v]] != parent[v] {
        HalvingKeepsRoots(parent, depth, x, parent[parent[v]]);
      }
    }
  }

  /** Depths after hanging root ra under root rb. */
  ghost function LinkedDepth(parent: seq<nat>, depth: seq<nat>, ra: nat, rb: nat): seq<nat>
    requires IsForest(parent, depth) && ra < |parent| && rb < |parent|
  {
    seq(|parent|, x requires 0 <= x < |parent| =>
      if Root(parent, depth, x) == ra then depth[x] + depth[rb] + 1 else depth[x])
  }

  lemma LinkKeepsForest(parent: seq<nat>, depth: seq<nat>, ra: nat, rb: nat)
    requires IsForest(parent, depth) && ra < |parent| && rb < |parent|
    requires parent[ra] == ra && parent[rb] == rb && ra != rb
    ensures IsForest(parent[ra := rb], LinkedDepth(parent, depth, ra, rb))
  {
    var parent', depth' := parent[ra := rb], LinkedDepth(parent, depth, ra, rb);
    forall u {:trigger parent'[u]} | 0 <= u < |parent'|
      ensures parent'[u] < |parent'| && (parent'[u] != u ==> depth'[parent'[u]] < depth'[u])
    {
      assert parent[u] < |parent|;
      if u == ra {
        assert Root(parent, depth, rb) == rb;
      } else if parent[u] != u {
        assert Root(parent, depth, u) == Root(parent, depth, parent[u]);
      }
    }
  }

  /** Linking ra under rb makes rb the root of ra's whole tree and moves no other node. */
  lemma {:induction false} LinkMovesOneTree(parent: seq<nat>, depth: seq<nat>, ra: nat, rb: nat, v: nat)
    requires IsForest(parent, depth) && ra < |parent| && rb < |parent| && v < |parent|
    requires parent[ra] == ra && parent[rb] == rb && ra != rb
    requires IsForest(parent[ra := rb], LinkedDepth(parent, depth, ra, rb))
    ensures Root(parent[ra := rb], LinkedDepth(parent, depth, ra, rb), v)
         == if Root(parent, depth, v) == ra then rb else Root(parent, depth, v)
    decreases depth[v]
  {
    if parent[v] != v {
      LinkMovesOneTree(parent, depth, ra, rb, parent[v]);
    } else if v == ra {
      assert Root(parent[ra := rb], LinkedDepth(parent, depth, ra, rb), rb) == rb;
    }
  }

  /** Every node's root. */
  ghost function Roots(parent: seq<nat>, depth: seq<nat>): seq<nat>
    requires IsForest(parent, depth)
  {
    seq(|parent|, u requires 0 <= u < |parent| => Root(parent, depth, u))
  }

  /** The node-to-root table after root ra was linked under root rb. */
  ghost function Merged(roots: seq<nat>, ra: nat, rb: nat): seq<nat> {
    seq(|roots|, u requires 0 <= u < |roots| => if roots[u] == ra then rb else roots[u])
  }

  class Forest {
    var parent: seq<nat>
    ghost var depth: seq<nat>

    ghost predicate Valid()
      reads this
    {
      IsForest(parent, depth)
    }

    ghost function RootTable(): seq<nat>
      requires Valid()
      reads this
    {
      Roots(parent, depth)
    }

    constructor (n: nat)
      ensures Valid() && RootTable() == Identity(n)
    {
      parent := seq(n, i => i);
      depth := seq(n, i => 0);
    }

    /** Follows parents to the root, pointing every visited node at its grandparent. */
    method Find(node: nat) returns (root: nat)
      requires Valid() && node < |parent|
      modifies this`parent
      ensures Valid() && RootTable() == old(RootTable())
      ensures root == RootTable()[node]
    {
      var name: nat := node;
      while parent[name] != name
        invariant Valid() && name < |parent| && RootTable() == old(RootTable())
        invariant RootTable()[name] == RootTable()[node]
        decreases depth[name]
      {
        Halve(name);
        assert RootTable()[name] == RootTable()[parent[name]];
        name := parent[name];
      }
      root := name;
    }

    method Halve(x: nat)
      requires Valid() && x < |parent| && parent[x] != x
      modifies this`parent
      ensures Valid() && RootTable() == old(RootTable())
      ensures parent == old(parent[x := parent[parent[x]]]) && parent[x] < |parent|
      ensures depth[parent[x]] < depth[x]
    {
      assert parent[parent[x]] < |parent|;
      forall v | 0 <= v < |parent|
        ensures var halved := parent[x := parent[parent[x]]];
                IsForest(halved, depth) && Root(halved, depth, v) == Root(parent, depth, v)
      {
        HalvingKeepsRoots(parent, depth, x, v);
      }
      parent := parent[x := parent[parent[x]]];
      assert RootTable() == old(RootTable());
    }

    /** Hangs root ra under root rb. */
    method Link(ra: nat, rb: nat)
      requires Valid() && ra < |parent| && rb < |parent| && ra != rb
      requires RootTable()[ra] == ra && RootTable()[rb] == rb
      modifies this
      ensures Valid() && RootTable() == Merged(old(RootTable()), ra, rb)
    {
      assert parent[ra] == ra && parent[rb] == rb;
      LinkKeepsForest(parent, depth, ra, rb);
      forall v | 0 <= v < |parent|
        ensures Root(parent[ra := rb], LinkedDepth(parent, depth, ra, rb), v)
             == if Root(parent, depth, v) == ra then rb else Root(parent, depth, v)
      {
        LinkMovesOneTree(parent, depth, ra, rb, v);
      }
      depth := LinkedDepth(parent, depth, ra, rb);
      parent := parent[ra := rb];
      assert RootTable() == Merged(old(RootTable()), ra, rb);
    }
  }

  // ---------------------------------------------------------------- Kruskal

  ghost predicate InRange(n: nat, edges: set<Edge>) {
    forall e :: e in edges ==> e.a < n && e.b < n
  }

  /** Two nodes share a root exactly when the edges connect them. */
  ghost predicate Describes(roots: seq<nat>, edges: set<Edge>) {
    && InRange(|roots|, edges)
    && (forall u :: 0 <= u < |roots| ==> roots[u] < |roots| && roots[roots[u]] == roots[u])
    && (forall e :: e in edges ==> roots[e.a] == roots[e.b])
    && (forall u :: 0 <= u < |roots| ==> Connected(edges, u, roots[u]))
  }

  lemma {:induction false} TrailKeepsRoot(roots: seq<nat>, edges: set<Edge>, p: seq<nat>)
    requires Describes(roots, edges) && Trail(edges, p) && p[0] < |roots|
    ensures p[|p| - 1] < |roots| && roots[p[|p| - 1]] == roots[p[0]]
    decreases |p|
  {
    if |p| > 1 {
      var init := p[..|p| - 1];
      assert forall i :: 0 <= i < |init| ==> init[i] == p[i];
      TrailKeepsRoot(roots, edges, init);
      assert Linked(edges, p[|p| - 2], p[|p| - 2 + 1]);
    }
  }

  lemma ConnectedMeansSameRoot(roots: seq<nat>, edges: set<Edge>, u: nat, v: nat)
    requires Describes(roots, edges) && u < |roots| && v < |roots|
    ensures Connected(edges, u, v) <==> roots[u] == roots[v]
  {
    if Connected(edges, u, v) {
      var p :| Trail(edges, p) && p[0] == u && p[|p| - 1] == v;
      TrailKeepsRoot(roots, edges, p);
    }
    if roots[u] == roots[v] {
      ConnectedSymmetric(edges, v, roots[v]);
      ConnectedTransitive(edges, u, roots[u], v);
    }
  }

  lemma SkipDescribes(roots: seq<nat>, edges: set<Edge>, e: Edge)
    requires Describes(roots, edges) && e.a < |roots| && e.b < |roots| && roots[e.a] == roots[e.b]
    ensures Describes(roots, edges + {e})
  {
    forall u | 0 <= u < |roots|
      ensures Connected(edges + {e}, u, roots[u])
    {
      ConnectedMonotone(edges, edges + {e}, u, roots[u]);
    }
  }

  lemma MergeDescribes(roots: seq<nat>, edges: set<Edge>, e: Edge)
    requires Describes(roots, edges) && e.a < |roots| && e.b < |roots| && roots[e.a] != roots[e.b]
    ensures Describes(Merged(roots, roots[e.a], roots[e.b]), edges + {e})
  {
    hide Connected;
    var ra, rb, more := roots[e.a], roots[e.b], edges + {e};
    var merged := Merged(roots, ra, rb);
    forall u | 0 <= u < |roots|
      ensures Connected(more, u, merged[u])
    {
      ConnectedMonotone(edges, more, u, roots[u]);
      if roots[u] == ra {
        ConnectedMonotone(edges, more, e.a, ra);
        ConnectedSymmetric(more, e.a, ra);
        ConnectedEdge(more, e);
        ConnectedMonotone(edges, more, e.b, rb);
        ConnectedTransitive(more, u, ra, e.a);
        ConnectedTransitive(more, u, e.a, e.b);
        ConnectedTransitive(more, u, e.b, rb);
      }
    }
  }

  ghost function RootSet(roots: seq<nat>): set<nat> {
    set u: nat | u < |roots| && roots[u] == u
  }

  lemma MergeRemovesOneRoot(roots: seq<nat>, edges: set<Edge>, ra: nat, rb: nat)
    requires Describes(roots, edges) && ra < |roots| && rb < |roots| && ra != rb
    requires roots[ra] == ra && roots[rb] == rb
    ensures |RootSet(Merged(roots, ra, rb))| == |RootSet(roots)| - 1
  {
    assert RootSet(Merged(roots, ra, rb)) == RootSet(roots) - {ra};
  }

  lemma OneRootConnects(roots: seq<nat>, edges: set<Edge>)
    requires Describes(roots, edges) && |RootSet(roots)| == 1
    ensures AllConnected(|roots|, edges)
  {
    hide Connected;
    var r :| r in RootSet(roots);
    assert RootSet(roots) == {r} by {
      assert |RootSet(roots) - {r}| == 0;
    }
    forall u, v | 0 <= u < |roots| && 0 <= v < |roots|
      ensures Connected(edges, u, v)
    {
      assert roots[u] in RootSet(roots) && roots[v] in RootSet(roots);
      ConnectedMeansSameRoot(roots, edges, u, v);
    }
  }

  lemma TwoRootsDisconnect(roots: seq<nat>, edges: set<Edge>)
    requires Describes(roots, edges) && |RootSet(roots)| >= 2
    ensures !AllConnected(|roots|, edges)
  {
    hide Connected;
    var r :| r in RootSet(roots);
    var rest := RootSet(roots) - {r};
    assert |rest| >= 1;
    var q :| q in rest;
    ConnectedMeansSameRoot(roots, edges, r, q);
  }

  function MinOf(s: seq<real>): real
    requires |s| > 0
  {
    if |s| == 1 then s[0] else if s[0] <= MinOf(s[1..]) then s[0] else MinOf(s[1..])
  }

  lemma {:induction false} MinIsLast(s: seq<real>)
    requires |s| > 0 && forall i :: 0 <= i < |s| ==> s[i] >= s[|s| - 1]
    ensures MinOf(s) == s[|s| - 1]
  {
    if |s| > 1 {
      MinIsLast(s[1..]);
    }
  }

  predicate LargerFirst(x: Edge, y: Edge) {
    x.area >= y.area
  }

  ghost function EdgeSet(edges: seq<Edge>): set<Edge> {
    set e | e in edges
  }

  /** What holds after the edges processed so far. */
  ghost predicate Progress(roots: seq<nat>, sorted: seq<Edge>, i: nat, selected: seq<real>)
    requires i <= |sorted|
  {
    && Describes(roots, EdgeSet(sorted[..i]))
    && |RootSet(roots)| == |roots| - |selected|
    && (forall k, l :: 0 <= k < l < |selected| ==> selected[k] >= selected[l])
    && (forall k, j :: 0 <= k < |selected| && i <= j < |sorted| ==> selected[k] >= sorted[j].area)
  }

  /** Before any edge every node is its own root. */
  function Identity(n: nat): seq<nat> {
    seq(n, i requires 0 <= i < n => i)
  }

  lemma IdentityRoots(n: nat)
    ensures |RootSet(Identity(n))| == n
  {
    BelowCount(n);
    assert RootSet(Identity(n)) == Below(n);
  }

  lemma NothingProcessed(n: nat, sorted: seq<Edge>)
    ensures Progress(Identity(n), sorted, 0, [])
  {
    var roots := Identity(n);
    IdentityRoots(n);
    forall u | 0 <= u < n
      ensures Connected({}, u, roots[u])
    {
      ConnectedReflexive({}, u);
    }
    assert EdgeSet(sorted[..0]) == {};
  }

  lemma PrefixEdges(sorted: seq<Edge>, i: nat)
    requires i <= |sorted|
    ensures EdgeSet(sorted[..i]) <= EdgeSet(sorted)
  {
  }

  lemma RootsAreRoots(roots: seq<nat>, sorted: seq<Edge>, i: nat, selected: seq<real>, u: nat)
    requires i <= |sorted| && Progress(roots, sorted, i, selected) && u < |roots|
    ensures roots[u] < |roots| && roots[roots[u]] == roots[u]
  {
  }

  lemma NextPrefix(sorted: seq<Edge>, i: nat)
    requires i < |sorted|
    ensures EdgeSet(sorted[..i + 1]) == EdgeSet(sorted[..i]) + {sorted[i]}
  {
    assert sorted[..i + 1] == sorted[..i] + [sorted[i]];
  }

  lemma Skipped(roots: seq<nat>, sorted: seq<Edge>, i: nat, selected: seq<real>)
    requires i < |sorted| && Progress(roots, sorted, i, selected)
    requires sorted[i].a < |roots| && sorted[i].b < |roots| && roots[sorted[i].a] == roots[sorted[i].b]
    ensures Progress(roots, sorted, i + 1, selected)
  {
    NextPrefix(sorted, i);
    SkipDescribes(roots, EdgeSet(sorted[..i]), sorted[i]);
  }

  lemma Selected(roots: seq<nat>, sorted: seq<Edge>, i: nat, selected: seq<real>)
    requires i < |sorted| && Progress(roots, sorted, i, selected) && SortedBy(sorted, LargerFirst)
    requires sorted[i].a < |roots| && sorted[i].b < |roots| && roots[sorted[i].a] != roots[sorted[i].b]
    ensures Progress(Merged(roots, roots[sorted[i].a], roots[sorted[i].b]), sorted, i + 1, selected + [sorted[i].area])
    ensures !AllConnected(|roots|, EdgeSet(sorted[..i]))
  {
    hide Connected;
    NextPrefix(sorted, i);
    var e := sorted[i];
    MergeDescribes(roots, EdgeSet(sorted[..i]), e);
    MergeRemovesOneRoot(roots, EdgeSet(sorted[..i]), roots[e.a], roots[e.b]);
    ConnectedMeansSameRoot(roots, EdgeSet(sorted[..i]), e.a, e.b);
  }

  /** m is the largest threshold at which the edges still connect every node. */
  ghost predicate LargestThreshold(n: nat, edges: set<Edge>, m: real) {
    && AllConnected(n, AtLeast(edges, m))
    && forall t :: t > m ==> !AllConnected(n, AtLeast(edges, t))
  }

  lemma AllConnectedMonotone(n: nat, edges: set<Edge>, more: set<Edge>)
    requires AllConnected(n, edges) && edges <= more
    ensures AllConnected(n, more)
  {
    hide Connected;
    forall u, v | 0 <= u < n && 0 <= v < n
      ensures Connected(more, u, v)
    {
      ConnectedMonotone(edges, more, u, v);
    }
  }

  lemma LargestFirst(sorted: seq<Edge>, i: nat, j: nat)
    requires SortedBy(sorted, LargerFirst) && i <= j < |sorted|
    ensures sorted[i].area >= sorted[j].area
  {
    assert i < j ==> LargerFirst(sorted[i], sorted[j]);
  }

  /** The edge whose selection first connects everything carries the largest threshold. */
  lemma LastSelectedIsThreshold(n: nat, edges: set<Edge>, sorted: seq<Edge>, i: nat)
    requires i < |sorted| && SortedBy(sorted, LargerFirst) && EdgeSet(sorted) == edges
    requires AllConnected(n, EdgeSet(sorted[..i + 1])) && !AllConnected(n, EdgeSet(sorted[..i]))
    ensures LargestThreshold(n, edges, sorted[i].area)
  {
    hide AllConnected;
    var m := sorted[i].area;
    assert EdgeSet(sorted[..i + 1]) <= AtLeast(edges, m) by {
      forall e | e in EdgeSet(sorted[..i + 1])
        ensures e in AtLeast(edges, m)
      {
        var j :| 0 <= j < i + 1 && sorted[j] == e;
        assert e in EdgeSet(sorted);
        LargestFirst(sorted, j, i);
      }
    }
    AllConnectedMonotone(n, EdgeSet(sorted[..i + 1]), AtLeast(edges, m));
    forall t | t > m
      ensures !AllConnected(n, AtLeast(edges, t))
    {
      forall e | e in AtLeast(edges, t)
        ensures e in EdgeSet(sorted[..i])
      {
        var j :| 0 <= j < |sorted| && sorted[j] == e;
        if j >= i {
          LargestFirst(sorted, i, j);
        }
        assert sorted[..i][j] == e;
      }
      if AllConnected(n, AtLeast(edges, t)) {
        AllConnectedMonotone(n, AtLeast(edges, t), EdgeSet(sorted[..i]));
      }
    }
  }

  /** With n - 1 edges selected the processed edges connect everything and the last one is the smallest. */
  lemma AllSelected(roots: seq<nat>, edges: set<Edge>, sorted: seq<Edge>, i: nat, selected: seq<real>)
    requires 0 < i <= |sorted| && Progress(roots, sorted, i, selected) && EdgeSet(sorted) == edges
    requires |selected| == |roots| - 1 && |selected| > 0 && selected[|selected| - 1] == sorted[i - 1].area
    requires SortedBy(sorted, LargerFirst) && !AllConnected(|roots|, EdgeSet(sorted[..i - 1]))
    ensures AllConnected(|roots|, edges) && LargestThreshold(|roots|, edges, MinOf(selected))
  {
    hide AllConnected, LargestThreshold, EdgeSet, RootSet;
    OneRootConnects(roots, EdgeSet(sorted[..i]));
    MinIsLast(selected);
    LastSelectedIsThreshold(|roots|, edges, sorted, i - 1);
    PrefixEdges(sorted, i);
    AllConnectedMonotone(|roots|, EdgeSet(sorted[..i]), edges);
  }

  /** With fewer selected after all edges, some node stays apart. */
  lemma TooFewSelected(roots: seq<nat>, edges: set<Edge>, sorted: seq<Edge>, selected: seq<real>)
    requires Progress(roots, sorted, |sorted|, selected) && EdgeSet(sorted) == edges
    requires |selected| < |roots| - 1
    ensures !AllConnected(|roots|, edges)
  {
    hide AllConnected;
    assert sorted[..|sorted|] == sorted;
    TwoRootsDisconnect(roots, edges);
  }

  lemma SortedEdges(edges: seq<Edge>)
    ensures SortedBy(Sorted(edges, LargerFirst), LargerFirst)
    ensures EdgeSet(Sorted(edges, LargerFirst)) == EdgeSet(edges)
  {
    SortedSorts(edges, LargerFirst);
    SortedMembers(edges, LargerFirst);
  }

  /**
   The bottleneck edge of a maximum spanning tree: the largest threshold at which the
   edges of at least that area still connect all cameras, and 0 when the given edges do
   not connect them.
   */
  method MaximumSpanningTreeBottleneck(n: nat, edges: seq<Edge>) returns (m: real)
    requires n >= 2 && InRange(n, EdgeSet(edges))
    ensures AllConnected(n, EdgeSet(edges)) ==> LargestThreshold(n, EdgeSet(edges), m)
    ensures !AllConnected(n, EdgeSet(edges)) ==> m == 0.0
  {
    hide AllConnected, LargestThreshold, Progress;
    var forest := new Forest(n);
    var sorted := Sorted(edges, LargerFirst);
    SortedEdges(edges);
    var selected: seq<real> := [];
    var i := 0;
    NothingProcessed(n, sorted);
    while i < |sorted|
      invariant 0 <= i <= |sorted| && forest.Valid() && fresh(forest)
      invariant |forest.RootTable()| == n == |forest.parent|
      invariant Progress(forest.RootTable(), sorted, i, selected)
      invariant |selected| < n - 1
    {
      var e := sorted[i];
      assert e in EdgeSet(sorted);
      var ra := forest.Find(e.a);
      var rb := forest.Find(e.b);
      ghost var roots := forest.RootTable();
      if ra == rb {
        Skipped(roots, sorted, i, selected);
        i := i + 1;
        continue;
      }
      Selected(roots, sorted, i, selected);
      RootsAreRoots(roots, sorted, i, selected, e.a);
      RootsAreRoots(roots, sorted, i, selected, e.b);
      forest.Link(ra, rb);
      selected := selected + [e.area];
      i := i + 1;
      if |selected| == n - 1 {
        AllSelected(forest.RootTable(), EdgeSet(edges), sorted, i, selected);
        return MinOf(selected);
      }
    }
    TooFewSelected(forest.RootTable(), EdgeSet(edges), sorted, selected);
    return 0.0;
  }
}
