/**
 Shortest paths on a mask with a lazy-deletion priority queue.
 */
module Dijkstra {
  import opened Options
  import opened Grid
  import opened Routing

  /** A tentative distance; Infinite until the cell is first reached. */
  datatype Distance = Infinite | Finite(metres: real)

  /** A queue entry; entries compare by distance, then row, then column. */
  datatype Entry = Entry(d: real, cell: Cell)

  predicate AtMost(e: Entry, f: Entry) {
    || e.d < f.d
    || (e.d == f.d && (e.cell.r < f.cell.r || (e.cell.r == f.cell.r && e.cell.c <= f.cell.c)))
  }

  lemma {:induction false} SmallestEntry(pq: multiset<Entry>) returns (e: Entry)
    requires |pq| > 0
    ensures e in pq && forall f :: f in pq ==> AtMost(e, f)
    decreases |pq|
  {
    var any :| any in pq;
    var rest := pq - multiset{any};
    e := any;
    if |rest| > 0 {
      var m := SmallestEntry(rest);
      if AtMost(m, any) {
        e := m;
      }
    } else {
      assert rest == multiset{};
    }
    forall f | f in pq
      ensures AtMost(e, f)
    {
      assert f == any || f in rest;
    }
  }

  /** Removes a smallest entry of the queue. */
  method HeapPop(pq: multiset<Entry>) returns (e: Entry, rest: multiset<Entry>)
    requires |pq| > 0
    ensures e in pq && rest == pq - multiset{e}
    ensures forall f :: f in pq ==> AtMost(e, f)
  {
    ghost var m := SmallestEntry(pq);
    e :| e in pq && forall f :: f in pq ==> AtMost(e, f);
    rest := pq - multiset{e};
  }

  /** The distance array and its finite part. */
  ghost predicate Records(dist: array2<Distance>, known: map<Cell, real>)
    reads dist
  {
    && (forall c :: c in known ==> 0 <= c.r < dist.Length0 && 0 <= c.c < dist.Length1)
    && (forall r, c :: 0 <= r < dist.Length0 && 0 <= c < dist.Length1 ==>
          dist[r, c] == if Cell(r, c) in known then Finite(known[Cell(r, c)]) else Infinite)
  }

  /** Every known distance is that of a step from an earlier expanded cell. */
  ghost predicate Labels(free: set<Cell>, diagonal: real, start: Cell,
                         known: map<Cell, real>, prev: map<Cell, Cell>, at: map<Cell, nat>) {
    && start in known && known[start] == 0.0
    && at.Keys <= known.Keys <= free + {start}
    && (forall c {:trigger known[c]} :: c in known ==> known[c] >= 0.0)
    && (forall c {:trigger prev[c]} {:trigger c in prev} :: c in known && c != start ==>
          && c in prev && prev[c] in at
          && Edge(free, prev[c], c)
          && known[c] == known[prev[c]] + Step(diagonal, prev[c], c)
          && (c in at ==> at[prev[c]] < at[c]))
  }

  /** All steps out of `u` have been relaxed. */
  ghost predicate RelaxedFrom(free: set<Cell>, diagonal: real, known: map<Cell, real>, u: Cell)
    requires u in known
  {
    forall v {:trigger Edge(free, u, v)} :: Edge(free, u, v) ==>
      v in known && known[v] <= known[u] + Step(diagonal, u, v)
  }

  /** The queue holds every unexpanded known cell once at its present distance; the rest is stale. */
  ghost predicate Queued(known: map<Cell, real>, at: map<Cell, nat>, pq: multiset<Entry>) {
    && (forall e {:trigger pq[e]} :: e in pq ==>
          && pq[e] == 1 && e.cell in known && known[e.cell] <= e.d
          && (e.d == known[e.cell] ==> e.cell !in at))
    && (forall e, u :: e in pq && u in at && u in known ==> known[u] <= e.d)
    && (forall c {:trigger known[c]} :: c in known && c !in at ==> Entry(known[c], c) in pq)
  }

  /** The expanded cells, in order, each once. */
  ghost predicate Numbered(at: map<Cell, nat>, expanded: seq<Cell>) {
    && (forall i :: 0 <= i < |expanded| ==> expanded[i] in at && at[expanded[i]] == i)
    && (forall c :: c in at ==> at[c] < |expanded| && expanded[at[c]] == c)
  }

  /**
   Any walk from the start either ends in an expanded cell whose distance it does not
   beat, or is already at least as long as every queued distance.
   */
  lemma {:induction false} WalksAreCovered(free: set<Cell>, diagonal: real, start: Cell, known: map<Cell, real>,
                                           prev: map<Cell, Cell>, at: map<Cell, nat>, m: real, p: seq<Cell>)
    requires diagonal > 0.0 && Labels(free, diagonal, start, known, prev, at)
    requires forall u :: u in at ==> RelaxedFrom(free, diagonal, known, u)
    requires forall c :: c in known && c !in at ==> m <= known[c]
    requires Walk(free, p) && p[0] == start
    ensures Cost(diagonal, p) >= m
         || (p[|p| - 1] in at && known[p[|p| - 1]] <= Cost(diagonal, p))
  {
    if |p| > 1 {
      var init := p[..|p| - 1];
      assert forall i :: 0 <= i < |init| ==> init[i] == p[i];
      WalksAreCovered(free, diagonal, start, known, prev, at, m, init);
      var u, v := p[|p| - 2], p[|p| - 1];
      assert Edge(free, u, v) by { assert p[|p| - 2] == u; }
      if Cost(diagonal, init) < m {
        assert RelaxedFrom(free, diagonal, known, u);
      }
    }
  }

  /** What the relaxation of u's steps preserves, whichever of them have been tried. */
  ghost predicate Searching(free: set<Cell>, diagonal: real, start: Cell, known: map<Cell, real>,
                            prev: map<Cell, Cell>, at: map<Cell, nat>, pq: multiset<Entry>, u: Cell) {
    && Labels(free, diagonal, start, known, prev, at)
    && Queued(known, at, pq)
    && u in at && at.Keys <= known.Keys
    && (forall x :: x in at ==> known[x] <= known[u])
    && (forall x :: x in at && x != u ==> RelaxedFrom(free, diagonal, known, x))
  }

  /** A neighbour whose distance can be lowered is neither expanded nor the start. */
  lemma ImprovedIsNew(free: set<Cell>, diagonal: real, start: Cell, known: map<Cell, real>, prev: map<Cell, Cell>,
                      at: map<Cell, nat>, pq: multiset<Entry>, u: Cell, v: Cell)
    requires diagonal > 0.0 && Searching(free, diagonal, start, known, prev, at, pq, u)
    requires v in known ==> known[u] + Step(diagonal, u, v) < known[v]
    ensures v !in at && v != start
  {
    assert known[u] >= 0.0;
  }

  /** Lowering the distance of one neighbour of `u` keeps the search sound. */
  lemma RelaxKeeps(free: set<Cell>, diagonal: real, start: Cell, known: map<Cell, real>, prev: map<Cell, Cell>,
                   at: map<Cell, nat>, pq: multiset<Entry>, u: Cell, v: Cell)
    requires diagonal > 0.0 && Searching(free, diagonal, start, known, prev, at, pq, u)
    requires Edge(free, u, v)
    requires v in known ==> known[u] + Step(diagonal, u, v) < known[v]
    ensures v !in at
    ensures var nd := known[u] + Step(diagonal, u, v);
            Searching(free, diagonal, start, known[v := nd], prev[v := u], at, pq + multiset{Entry(nd, v)}, u)
  {
    hide Labels, Queued, RelaxedFrom;
    var nd := known[u] + Step(diagonal, u, v);
    ImprovedIsNew(free, diagonal, start, known, prev, at, pq, u, v);
    RelabelKeeps(free, diagonal, start, known, prev, at, u, v);
    PushKeeps(known, at, pq, u, v, nd);
    forall x | x in at && x != u
      ensures RelaxedFrom(free, diagonal, known[v := nd], x)
    {
      StillRelaxed(free, diagonal, known, x, v, nd);
    }
  }

  lemma StillRelaxed(free: set<Cell>, diagonal: real, known: map<Cell, real>, x: Cell, v: Cell, nd: real)
    requires x in known && x != v && RelaxedFrom(free, diagonal, known, x)
    requires v in known ==> nd < known[v]
    ensures RelaxedFrom(free, diagonal, known[v := nd], x)
  {
  }

  lemma RelabelKeeps(free: set<Cell>, diagonal: real, start: Cell, known: map<Cell, real>, prev: map<Cell, Cell>,
                     at: map<Cell, nat>, u: Cell, v: Cell)
    requires diagonal > 0.0 && Labels(free, diagonal, start, known, prev, at)
    requires Edge(free, u, v) && u in at && v !in at && v != start
    ensures Labels(free, diagonal, start, known[v := known[u] + Step(diagonal, u, v)], prev[v := u], at)
  {
  }

  lemma PushKeeps(known: map<Cell, real>, at: map<Cell, nat>, pq: multiset<Entry>, u: Cell, v: Cell, nd: real)
    requires Queued(known, at, pq) && u in at && u in known && v !in at
    requires (forall x :: x in at && x in known ==> known[x] <= nd) && (v in known ==> nd < known[v])
    ensures Queued(known[v := nd], at, pq + multiset{Entry(nd, v)})
  {
    var known', pq' := known[v := nd], pq + multiset{Entry(nd, v)};
    forall e {:trigger pq'[e]} | e in pq'
      ensures && pq'[e] == 1 && e.cell in known' && known'[e.cell] <= e.d
              && (e.d == known'[e.cell] ==> e.cell !in at)
    {
      if e == Entry(nd, v) {
        assert pq[e] == 0;
      } else {
        assert pq'[e] == pq[e];
      }
    }
  }

  /** What holds between two pops. */
  ghost predicate Settled(free: set<Cell>, diagonal: real, start: Cell, known: map<Cell, real>,
                          prev: map<Cell, Cell>, at: map<Cell, nat>, pq: multiset<Entry>) {
    && Labels(free, diagonal, start, known, prev, at)
    && Queued(known, at, pq)
    && (forall x :: x in at ==> RelaxedFrom(free, diagonal, known, x))
  }

  /** Expanding the cell of a smallest fresh entry. */
  lemma PopKeeps(free: set<Cell>, diagonal: real, start: Cell, known: map<Cell, real>, prev: map<Cell, Cell>,
                 at: map<Cell, nat>, expanded: seq<Cell>, pq: multiset<Entry>, e: Entry)
    requires diagonal > 0.0 && Settled(free, diagonal, start, known, prev, at, pq) && Numbered(at, expanded)
    requires e in pq && forall f :: f in pq ==> AtMost(e, f)
    requires e.d <= known[e.cell]
    ensures e.cell !in at && e.d == known[e.cell]
    ensures var at' := at[e.cell := |expanded|];
            && Searching(free, diagonal, start, known, prev, at', pq - multiset{e}, e.cell)
            && Numbered(at', expanded + [e.cell])
  {
    var u, rest := e.cell, pq - multiset{e};
    var at' := at[u := |expanded|];
    assert pq[e] == 1;
    assert Queued(known, at', rest) by {
      forall f {:trigger rest[f]} | f in rest
        ensures && rest[f] == 1 && f.cell in known && known[f.cell] <= f.d
                && (f.d == known[f.cell] ==> f.cell !in at')
      {
        assert f != e && pq[f] == rest[f];
      }
      forall c {:trigger known[c]} | c in known && c !in at'
        ensures Entry(known[c], c) in rest
      {
        assert Entry(known[c], c) in pq && Entry(known[c], c) != e;
      }
    }
  }

  /** The search before the first pop. */
  lemma StartSettled(free: set<Cell>, diagonal: real, start: Cell)
    ensures Settled(free, diagonal, start, map[start := 0.0], map[], map[], multiset{Entry(0.0, start)})
    ensures Numbered(map[], [])
  {
  }

  lemma NumberedOnce(at: map<Cell, nat>, expanded: seq<Cell>)
    requires Numbered(at, expanded)
    ensures forall i, j :: 0 <= i < j < |expanded| ==> expanded[i] != expanded[j]
  {
  }

  /** Drops a stale entry. */
  lemma DropKeeps(free: set<Cell>, diagonal: real, start: Cell, known: map<Cell, real>, prev: map<Cell, Cell>,
                  at: map<Cell, nat>, pq: multiset<Entry>, e: Entry)
    requires Settled(free, diagonal, start, known, prev, at, pq) && e in pq
    ensures e.cell in known && e.cell in free + {start}
    ensures e.d > known[e.cell] ==> Settled(free, diagonal, start, known, prev, at, pq - multiset{e})
  {
    var rest := pq - multiset{e};
    assert pq[e] > 0;
    if e.d > known[e.cell] {
      forall f {:trigger rest[f]} | f in rest
        ensures && rest[f] == 1 && f.cell in known && known[f.cell] <= f.d
                && (f.d == known[f.cell] ==> f.cell !in at)
      {
        assert f in pq && pq[f] == 1;
      }
    }
  }

  /** Once all eight neighbours are relaxed, u is settled like every other expanded cell. */
  lemma ExpandedIsSettled(free: set<Cell>, diagonal: real, known: map<Cell, real>, u: Cell)
    requires u in known
    requires forall k {:trigger Neighbour(u, k)} :: 0 <= k < 8 && Edge(free, u, Neighbour(u, k)) ==>
               && Neighbour(u, k) in known
               && known[Neighbour(u, k)] <= known[u] + Step(diagonal, u, Neighbour(u, k))
    ensures RelaxedFrom(free, diagonal, known, u)
  {
    forall v | Edge(free, u, v)
      ensures v in known && known[v] <= known[u] + Step(diagonal, u, v)
    {
      NeighboursAreAdjacent(u, v);
    }
  }

  // ---------------------------------------------------------------- which of several shortest paths

  /** By distance, then by row, then by column. */
  predicate NotBehind(d: real, u: Cell, d': real, v: Cell) {
    d < d' || (d == d' && (u.r < v.r || (u.r == v.r && u.c <= v.c)))
  }

  /** Cells are expanded by distance, row and column, and all that is queued comes after them. */
  ghost predicate InExpansionOrder(known: map<Cell, real>, at: map<Cell, nat>, pq: multiset<Entry>)
    requires at.Keys <= known.Keys
  {
    && (forall u, v :: u in at && v in at && at[u] < at[v] ==> NotBehind(known[u], u, known[v], v))
    && (forall u, e :: u in at && e in pq ==> NotBehind(known[u], u, e.d, e.cell))
  }

  /** Of all expanded cells that give a cell its distance, prev is the first. */
  ghost predicate FirstGiver(free: set<Cell>, diagonal: real, start: Cell, known: map<Cell, real>, prev: map<Cell, Cell>,
                             at: map<Cell, nat>)
    requires at.Keys <= known.Keys
  {
    forall u, v {:trigger Edge(free, u, v)} ::
      u in at && v in known && v != start && Edge(free, u, v) && known[u] + Step(diagonal, u, v) == known[v] ==>
        v in prev && prev[v] in at && at[prev[v]] <= at[u]
  }

  ghost predicate Ranked(free: set<Cell>, diagonal: real, start: Cell, known: map<Cell, real>, prev: map<Cell, Cell>,
                         at: map<Cell, nat>, pq: multiset<Entry>) {
    && at.Keys <= known.Keys && InExpansionOrder(known, at, pq) && FirstGiver(free, diagonal, start, known, prev, at)
  }

  lemma StartRanked(free: set<Cell>, diagonal: real, start: Cell)
    ensures Ranked(free, diagonal, start, map[start := 0.0], map[], map[], multiset{Entry(0.0, start)})
  {
  }

  lemma DropRanked(free: set<Cell>, diagonal: real, start: Cell, known: map<Cell, real>, prev: map<Cell, Cell>,
                   at: map<Cell, nat>, pq: multiset<Entry>, e: Entry)
    requires Ranked(free, diagonal, start, known, prev, at, pq)
    ensures Ranked(free, diagonal, start, known, prev, at, pq - multiset{e})
  {
    hide FirstGiver, NotBehind;
    assert forall f :: f in pq - multiset{e} ==> f in pq;
  }

  lemma PopRanked(free: set<Cell>, diagonal: real, start: Cell, known: map<Cell, real>, prev: map<Cell, Cell>,
                  at: map<Cell, nat>, expanded: seq<Cell>, pq: multiset<Entry>, e: Entry)
    requires Labels(free, diagonal, start, known, prev, at) && Numbered(at, expanded)
    requires Ranked(free, diagonal, start, known, prev, at, pq)
    requires e in pq && (forall f :: f in pq ==> AtMost(e, f)) && e.cell in known && e.d == known[e.cell] && e.cell !in at
    ensures Ranked(free, diagonal, start, known, prev, at[e.cell := |expanded|], pq - multiset{e})
  {
    var at' := at[e.cell := |expanded|];
    assert InExpansionOrder(known, at', pq - multiset{e}) by {
      assert forall f :: f in pq - multiset{e} ==> f in pq;
    }
    forall u, v {:trigger Edge(free, u, v)} | u in at' && v in known && v != start && Edge(free, u, v)
                                              && known[u] + Step(diagonal, u, v) == known[v]
      ensures v in prev && prev[v] in at' && at'[prev[v]] <= at'[u]
    {
      assert v in prev && prev[v] in at;
    }
  }

  lemma WhileExpanding(free: set<Cell>, diagonal: real, start: Cell, known: map<Cell, real>, prev: map<Cell, Cell>,
                       at: map<Cell, nat>, pq: multiset<Entry>, u: Cell)
    requires Searching(free, diagonal, start, known, prev, at, pq, u)
    ensures at.Keys <= known.Keys && u in at && forall x :: x in at ==> known[x] <= known[u]
    ensures forall x :: x in at && x != u ==> RelaxedFrom(free, diagonal, known, x)
  {
    hide Labels, Queued, RelaxedFrom;
  }

  /** Lowering a distance makes the cell being expanded the first that gives it. */
  lemma RelaxRanked(free: set<Cell>, diagonal: real, start: Cell, known: map<Cell, real>, prev: map<Cell, Cell>,
                    at: map<Cell, nat>, pq: multiset<Entry>, u: Cell, v: Cell)
    requires diagonal > 0.0 && Searching(free, diagonal, start, known, prev, at, pq, u) && u in known
    requires Ranked(free, diagonal, start, known, prev, at, pq) && v !in at
    requires v in known ==> known[u] + Step(diagonal, u, v) < known[v]
    ensures var nd := known[u] + Step(diagonal, u, v);
            Ranked(free, diagonal, start, known[v := nd], prev[v := u], at, pq + multiset{Entry(nd, v)})
  {
    hide Searching, InExpansionOrder, FirstGiver, RelaxedFrom, Step;
    WhileExpanding(free, diagonal, start, known, prev, at, pq, u);
    StepIsPositive(diagonal, u, v);
    var nd := known[u] + Step(diagonal, u, v);
    OrderAfterPush(known, at, pq, u, v, nd);
    GiverAfterPush(free, diagonal, start, known, prev, at, u, v, nd);
  }

  lemma GiverAfterPush(free: set<Cell>, diagonal: real, start: Cell, known: map<Cell, real>, prev: map<Cell, Cell>,
                       at: map<Cell, nat>, u: Cell, v: Cell, nd: real)
    requires at.Keys <= known.Keys && FirstGiver(free, diagonal, start, known, prev, at)
    requires u in at && v !in at && (v in known ==> nd < known[v])
    requires forall x :: x in at && x != u ==> RelaxedFrom(free, diagonal, known, x)
    ensures FirstGiver(free, diagonal, start, known[v := nd], prev[v := u], at)
  {
    hide Step;
    var known', prev' := known[v := nd], prev[v := u];
    forall x, y {:trigger Edge(free, x, y)} | x in at && y in known' && y != start && Edge(free, x, y)
                                              && known'[x] + Step(diagonal, x, y) == known'[y]
      ensures y in prev' && prev'[y] in at && at[prev'[y]] <= at[x]
    {
      assert x != u ==> RelaxedFrom(free, diagonal, known, x);
    }
  }

  lemma OrderAfterPush(known: map<Cell, real>, at: map<Cell, nat>, pq: multiset<Entry>, u: Cell, v: Cell, nd: real)
    requires at.Keys <= known.Keys && InExpansionOrder(known, at, pq) && v !in at && u in at && known[u] < nd
    requires forall x :: x in at ==> known[x] <= known[u]
    ensures InExpansionOrder(known[v := nd], at, pq + multiset{Entry(nd, v)})
  {
    assert forall f :: f in pq + multiset{Entry(nd, v)} ==> f in pq || f == Entry(nd, v);
  }

  /** Every cell of the path was reached from its predecessor on it. */
  ghost predicate FollowsBack(path: seq<Cell>, start: Cell, prev: map<Cell, Cell>) {
    forall i {:trigger path[i]} :: 0 < i < |path| ==> path[i] != start && path[i] in prev && path[i - 1] == prev[path[i]]
  }

  /** All cells of the path but the last have been expanded. */
  ghost predicate ExpandedUpToLast(path: seq<Cell>, at: map<Cell, nat>) {
    forall k :: 0 <= k < |path| - 1 ==> path[k] in at
  }

  lemma OneStepBack(x: Cell, path: seq<Cell>, start: Cell, prev: map<Cell, Cell>, at: map<Cell, nat>)
    requires |path| > 0 && FollowsBack(path, start, prev) && ExpandedUpToLast(path, at)
    requires path[0] != start && path[0] in prev && prev[path[0]] == x && x in at
    ensures FollowsBack([x] + path, start, prev) && ExpandedUpToLast([x] + path, at)
  {
    var more := [x] + path;
    assert forall k :: 0 < k < |more| ==> more[k] == path[k - 1];
  }

  /**
   Of all cells from which some walk reaches a cell of the path at the same length, the
   path comes from the first, by its distance from the start, its row and its column.
   */
  ghost predicate FirstChoice(free: set<Cell>, diagonal: real, start: Cell, p: seq<Cell>) {
    forall i, q: seq<Cell> {:trigger GivesLength(free, diagonal, start, p, i, q)} ::
      0 < i < |p| && GivesLength(free, diagonal, start, p, i, q) ==>
        NotBehind(Cost(diagonal, p[..i]), p[i - 1], Cost(diagonal, q), q[|q| - 1])
  }

  /** The walk q, followed by cell i of the path, is as long as the path up to there. */
  ghost predicate GivesLength(free: set<Cell>, diagonal: real, start: Cell, p: seq<Cell>, i: int, q: seq<Cell>)
    requires 0 < i < |p|
  {
    && |q| > 0 && Walk(free, q) && q[0] == start && Edge(free, q[|q| - 1], p[i])
    && Cost(diagonal, q) + Step(diagonal, q[|q| - 1], p[i]) == Cost(diagonal, p[..i + 1])
  }

  lemma {:induction false} DistancesAlong(free: set<Cell>, diagonal: real, start: Cell, known: map<Cell, real>,
                                          prev: map<Cell, Cell>, at: map<Cell, nat>, path: seq<Cell>, i: nat)
    requires Labels(free, diagonal, start, known, prev, at) && FollowsBack(path, start, prev)
    requires i < |path| && path[0] == start && path[|path| - 1] in known
    requires ExpandedUpToLast(path, at)
    ensures path[i] in known && known[path[i]] == Cost(diagonal, path[..i + 1])
  {
    if i > 0 {
      DistancesAlong(free, diagonal, start, known, prev, at, path, i - 1);
      assert path[..i + 1][..i] == path[..i];
      assert path[i] in prev && path[i - 1] == prev[path[i]];
    }
  }

  /** A cell from which a walk gives v its distance has been expanded, and at that walk's length. */
  lemma GiverIsExpanded(free: set<Cell>, diagonal: real, start: Cell, known: map<Cell, real>, prev: map<Cell, Cell>,
                        at: map<Cell, nat>, pq: multiset<Entry>, m: real, q: seq<Cell>, v: Cell)
    requires diagonal > 0.0 && Settled(free, diagonal, start, known, prev, at, pq)
    requires forall c :: c in known && c !in at ==> m <= known[c]
    requires |q| > 0 && Walk(free, q) && q[0] == start && Edge(free, q[|q| - 1], v) && v in known && known[v] <= m
    requires Cost(diagonal, q) + Step(diagonal, q[|q| - 1], v) == known[v]
    ensures q[|q| - 1] in at && known[q[|q| - 1]] == Cost(diagonal, q)
  {
    assert at.Keys <= known.Keys;
    hide Labels, Queued, Walk;
    WalksAreCovered(free, diagonal, start, known, prev, at, m, q);
    StepIsPositive(diagonal, q[|q| - 1], v);
    hide Cost, Step;
    assert RelaxedFrom(free, diagonal, known, q[|q| - 1]);
  }

  lemma StepIsPositive(diagonal: real, u: Cell, v: Cell)
    requires diagonal > 0.0
    ensures Step(diagonal, u, v) > 0.0
  {
  }

  lemma FirstGiverIsNotBehind(free: set<Cell>, diagonal: real, start: Cell, known: map<Cell, real>, prev: map<Cell, Cell>,
                              at: map<Cell, nat>, expanded: seq<Cell>, pq: multiset<Entry>, u: Cell, v: Cell)
    requires Ranked(free, diagonal, start, known, prev, at, pq) && Numbered(at, expanded)
    requires u in at && v in known && v != start && Edge(free, u, v) && known[u] + Step(diagonal, u, v) == known[v]
    ensures v in prev && prev[v] in at && NotBehind(known[prev[v]], prev[v], known[u], u)
  {
    hide NotBehind;
    assert at[prev[v]] <= at[u];
    if at[prev[v]] == at[u] {
      assert prev[v] == u;
      assert NotBehind(known[u], u, known[u], u) by { AlwaysNotBehind(known[u], u); }
    }
  }

  lemma AlwaysNotBehind(d: real, u: Cell)
    ensures NotBehind(d, u, d, u)
  {
  }

  lemma TracedIsFirstChoice(free: set<Cell>, diagonal: real, start: Cell, goal: Cell, known: map<Cell, real>,
                            prev: map<Cell, Cell>, at: map<Cell, nat>, expanded: seq<Cell>, pq: multiset<Entry>, path: seq<Cell>)
    requires diagonal > 0.0 && Settled(free, diagonal, start, known, prev, at, pq) && Numbered(at, expanded)
    requires Ranked(free, diagonal, start, known, prev, at, pq) && goal in known && NoneNearer(known, at, goal)
    requires IsPath(free, start, goal, path) && FollowsBack(path, start, prev)
    requires ExpandedUpToLast(path, at)
    ensures FirstChoice(free, diagonal, start, path)
  {
    hide Settled, Ranked, Numbered, FollowsBack, FirstChoice;
    PathIsFirstChoice(free, diagonal, start, known, prev, at, expanded, pq, known[goal], path);
  }

  lemma NextIsRanked(free: set<Cell>, diagonal: real, start: Cell, known: map<Cell, real>, prev: map<Cell, Cell>,
                     at: map<Cell, nat>, expanded: seq<Cell>, pq: multiset<Entry>, e: Entry)
    requires Settled(free, diagonal, start, known, prev, at, pq) && Numbered(at, expanded)
    requires Ranked(free, diagonal, start, known, prev, at, pq)
    requires e in pq && (forall f :: f in pq ==> AtMost(e, f)) && e.cell !in at
    requires e.cell in known ==> e.d == known[e.cell]
    ensures Ranked(free, diagonal, start, known, prev, at[e.cell := |expanded|], pq - multiset{e})
  {
    hide Labels, Ranked, Numbered, AtMost;
    assert pq[e] == 1;
    PopRanked(free, diagonal, start, known, prev, at, expanded, pq, e);
  }

  lemma PathIsFirstChoice(free: set<Cell>, diagonal: real, start: Cell, known: map<Cell, real>, prev: map<Cell, Cell>,
                          at: map<Cell, nat>, expanded: seq<Cell>, pq: multiset<Entry>, m: real, path: seq<Cell>)
    requires diagonal > 0.0 && Settled(free, diagonal, start, known, prev, at, pq) && Numbered(at, expanded)
    requires Ranked(free, diagonal, start, known, prev, at, pq)
    requires forall c :: c in known && c !in at ==> m <= known[c]
    requires |path| > 0 && path[0] == start && path[|path| - 1] in known && known[path[|path| - 1]] <= m
    requires FollowsBack(path, start, prev) && ExpandedUpToLast(path, at)
    ensures FirstChoice(free, diagonal, start, path)
  {
    hide Labels, Queued, RelaxedFrom, InExpansionOrder, FirstGiver, Cost, Walk, NotBehind, Numbered, Ranked;
    forall i, q: seq<Cell> {:trigger GivesLength(free, diagonal, start, path, i, q)}
      | 0 < i < |path| && GivesLength(free, diagonal, start, path, i, q)
      ensures NotBehind(Cost(diagonal, path[..i]), path[i - 1], Cost(diagonal, q), q[|q| - 1])
    {
      var u, v := q[|q| - 1], path[i];
      DistancesAlong(free, diagonal, start, known, prev, at, path, i);
      DistancesAlong(free, diagonal, start, known, prev, at, path, i - 1);
      DistancesRise(free, diagonal, start, known, prev, at, path, i);
      assert v != start && path[i - 1] == prev[v];
      GiverIsExpanded(free, diagonal, start, known, prev, at, pq, m, q, v);
      FirstGiverIsNotBehind(free, diagonal, start, known, prev, at, expanded, pq, u, v);
    }
  }

  lemma {:induction false} DistancesRise(free: set<Cell>, diagonal: real, start: Cell, known: map<Cell, real>,
                                         prev: map<Cell, Cell>, at: map<Cell, nat>, path: seq<Cell>, i: nat)
    requires diagonal > 0.0 && Labels(free, diagonal, start, known, prev, at) && FollowsBack(path, start, prev)
    requires i < |path| && path[|path| - 1] in known && ExpandedUpToLast(path, at)
    ensures path[i] in known && known[path[i]] <= known[path[|path| - 1]]
    decreases |path| - i
  {
    if i < |path| - 1 {
      DistancesRise(free, diagonal, start, known, prev, at, path, i + 1);
      assert path[i + 1] in prev && path[i] == prev[path[i + 1]];
    }
  }

  /** Two shortest paths that follow this rule agree cell by cell from their ends. */
  lemma {:induction false} ChoicesAgree(free: set<Cell>, diagonal: real, start: Cell, goal: Cell,
                                        p: seq<Cell>, q: seq<Cell>, k: nat)
    requires Shortest(free, diagonal, start, goal, p) && Shortest(free, diagonal, start, goal, q)
    requires FirstChoice(free, diagonal, start, p) && FirstChoice(free, diagonal, start, q)
    requires k < |p| && k < |q|
    ensures p[|p| - 1 - k] == q[|q| - 1 - k]
    ensures Cost(diagonal, p[..|p| - k]) == Cost(diagonal, q[..|q| - k])
  {
    hide Cost, FirstChoice, Walk;
    if k == 0 {
      assert p[..|p|] == p && q[..|q|] == q;
    } else {
      ChoicesAgree(free, diagonal, start, goal, p, q, k - 1);
      SameChoice(free, diagonal, start, p, |p| - k, q, |q| - k);
    }
  }

  lemma SameChoice(free: set<Cell>, diagonal: real, start: Cell, p: seq<Cell>, i: nat, q: seq<Cell>, j: nat)
    requires Walk(free, p) && Walk(free, q) && p[0] == q[0] == start
    requires 0 < i < |p| && 0 < j < |q| && p[i] == q[j] && Cost(diagonal, p[..i + 1]) == Cost(diagonal, q[..j + 1])
    requires FirstChoice(free, diagonal, start, p) && FirstChoice(free, diagonal, start, q)
    ensures p[i - 1] == q[j - 1] && Cost(diagonal, p[..i]) == Cost(diagonal, q[..j])
  {
    ChoiceIsNotBehind(free, diagonal, start, p, i, q, j);
    ChoiceIsNotBehind(free, diagonal, start, q, j, p, i);
    hide Cost, Walk, FirstChoice;
  }

  lemma ChoiceIsNotBehind(free: set<Cell>, diagonal: real, start: Cell, p: seq<Cell>, i: nat, q: seq<Cell>, j: nat)
    requires Walk(free, q) && q[0] == start && FirstChoice(free, diagonal, start, p)
    requires 0 < i < |p| && 0 < j < |q| && p[i] == q[j] && Cost(diagonal, p[..i + 1]) == Cost(diagonal, q[..j + 1])
    ensures NotBehind(Cost(diagonal, p[..i]), p[i - 1], Cost(diagonal, q[..j]), q[j - 1])
  {
    PrefixGives(free, diagonal, start, q, j);
    GivesTheOther(free, diagonal, start, p, i, q, j);
    hide Cost, Walk, GivesLength, NotBehind;
    assert q[..j][|q[..j]| - 1] == q[j - 1];
  }

  lemma GivesTheOther(free: set<Cell>, diagonal: real, start: Cell, p: seq<Cell>, i: nat, q: seq<Cell>, j: nat)
    requires 0 < i < |p| && 0 < j < |q| && p[i] == q[j] && Cost(diagonal, p[..i + 1]) == Cost(diagonal, q[..j + 1])
    requires GivesLength(free, diagonal, start, q, j, q[..j])
    ensures GivesLength(free, diagonal, start, p, i, q[..j])
  {
    hide Cost, Walk, Step;
  }

  /** So there is only one: the path returned is determined. */
  lemma ShortestPathIsDetermined(free: set<Cell>, diagonal: real, start: Cell, goal: Cell, p: seq<Cell>, q: seq<Cell>)
    requires diagonal > 0.0 && |p| <= |q|
    requires Shortest(free, diagonal, start, goal, p) && FirstChoice(free, diagonal, start, p)
    requires Shortest(free, diagonal, start, goal, q) && FirstChoice(free, diagonal, start, q)
    ensures p == q
  {
    assert |p| > 0 && p[0] == start;
    hide FirstChoice, Walk, Cost;
    var k := |p| - 1;
    ChoicesAgree(free, diagonal, start, goal, p, q, k);
    NoLength(diagonal, p[..1]);
    CostNonNegative(diagonal, q[..|q| - k]);
    assert |q| == |p|;
    forall i | 0 <= i < |p|
      ensures p[i] == q[i]
    {
      ChoicesAgree(free, diagonal, start, goal, p, q, |p| - 1 - i);
    }
  }

  lemma NoLength(diagonal: real, p: seq<Cell>)
    requires |p| == 1
    ensures Cost(diagonal, p) == 0.0
  {
  }

  lemma PrefixGives(free: set<Cell>, diagonal: real, start: Cell, p: seq<Cell>, i: nat)
    requires Walk(free, p) && p[0] == start && 0 < i < |p|
    ensures GivesLength(free, diagonal, start, p, i, p[..i])
  {
    var head := p[..i];
    assert forall k :: 0 <= k < i ==> head[k] == p[k];
    assert p[..i + 1][..i] == head;
    assert Edge(free, p[i - 1], p[i]);
  }

  // ---------------------------------------------------------------- the search

  /** Tries the step from `u` to one neighbour. */
  method Relax(mask: array2<bool>, diagonal: real, u: Cell, d: real, v: Cell,
               dist: array2<Distance>, prev: map<Cell, Cell>, pq: multiset<Entry>,
               ghost start: Cell, ghost known: map<Cell, real>, ghost at: map<Cell, nat>)
    returns (prev': map<Cell, Cell>, pq': multiset<Entry>, ghost known': map<Cell, real>)
    requires dist.Length0 == mask.Length0 && dist.Length1 == mask.Length1 && diagonal > 0.0
    requires Adjacent(u, v) && Records(dist, known)
    requires Searching(TrueCells(mask), diagonal, start, known, prev, at, pq, u) && d == known[u]
    requires Ranked(TrueCells(mask), diagonal, start, known, prev, at, pq)
    modifies dist
    ensures Records(dist, known') && known'.Keys >= known.Keys
    ensures Ranked(TrueCells(mask), diagonal, start, known', prev', at, pq')
    ensures Searching(TrueCells(mask), diagonal, start, known', prev', at, pq', u) && d == known'[u]
    ensures forall c :: c in known ==> known'[c] <= known[c]
    ensures v in TrueCells(mask) ==> v in known' && known'[v] <= d + Step(diagonal, u, v)
  {
    hide Labels, Queued, RelaxedFrom, Ranked;
    prev', pq', known' := prev, pq, known;
    if !InBounds(mask, v) || !mask[v.r, v.c] {
      return;
    }
    var nd := d + Step(diagonal, u, v);
    if dist[v.r, v.c].Infinite? || nd < dist[v.r, v.c].metres {
      RelaxKeeps(TrueCells(mask), diagonal, start, known, prev, at, pq, u, v);
      RelaxRanked(TrueCells(mask), diagonal, start, known, prev, at, pq, u, v);
      dist[v.r, v.c] := Finite(nd);
      prev', pq', known' := prev[v := u], pq + multiset{Entry(nd, v)}, known[v := nd];
    }
  }

  /** Tries the steps to all eight neighbours of a freshly popped cell. */
  method Expand(mask: array2<bool>, diagonal: real, u: Cell, d: real,
                dist: array2<Distance>, prev: map<Cell, Cell>, pq: multiset<Entry>,
                ghost start: Cell, ghost known: map<Cell, real>, ghost at: map<Cell, nat>)
    returns (prev': map<Cell, Cell>, pq': multiset<Entry>, ghost known': map<Cell, real>)
    requires dist.Length0 == mask.Length0 && dist.Length1 == mask.Length1 && diagonal > 0.0
    requires Records(dist, known)
    requires Searching(TrueCells(mask), diagonal, start, known, prev, at, pq, u) && d == known[u]
    requires Ranked(TrueCells(mask), diagonal, start, known, prev, at, pq)
    modifies dist
    ensures Records(dist, known') && Settled(TrueCells(mask), diagonal, start, known', prev', at, pq')
    ensures Ranked(TrueCells(mask), diagonal, start, known', prev', at, pq')
  {
    hide Labels, Queued, RelaxedFrom, Records, TrueCells, Ranked;
    prev', pq', known' := prev, pq, known;
    for k := 0 to 8
      invariant Records(dist, known') && Ranked(TrueCells(mask), diagonal, start, known', prev', at, pq')
      invariant Searching(TrueCells(mask), diagonal, start, known', prev', at, pq', u) && u in known' && d == known'[u]
      invariant forall j {:trigger Neighbour(u, j)} :: 0 <= j < k && Neighbour(u, j) in TrueCells(mask) ==>
                  && Neighbour(u, j) in known'
                  && known'[Neighbour(u, j)] <= d + Step(diagonal, u, Neighbour(u, j))
    {
      var v := Neighbour(u, k);
      NeighboursAreAdjacent(u, v);
      prev', pq', known' := Relax(mask, diagonal, u, d, v, dist, prev', pq', start, known', at);
    }
    ExpandedIsSettled(TrueCells(mask), diagonal, known', u);
  }

  /** The recorded distance of the goal is final: no path beats it, and without one there is no path. */
  ghost predicate Decided(free: set<Cell>, diagonal: real, start: Cell, goal: Cell, known: map<Cell, real>) {
    forall p :: IsPath(free, start, goal, p) ==> goal in known && known[goal] <= Cost(diagonal, p)
  }

  /** No cell that is not expanded is nearer than the goal. */
  ghost predicate NoneNearer(known: map<Cell, real>, at: map<Cell, nat>, goal: Cell) {
    goal in known ==> forall c :: c in known && c !in at ==> known[goal] <= known[c]
  }

  /** Popping the goal at its recorded distance decides it. */
  lemma GoalPoppedDecides(free: set<Cell>, diagonal: real, start: Cell, known: map<Cell, real>, prev: map<Cell, Cell>,
                          at: map<Cell, nat>, pq: multiset<Entry>, e: Entry)
    requires diagonal > 0.0 && Settled(free, diagonal, start, known, prev, at, pq)
    requires e in pq && e.d <= known[e.cell] && forall f :: f in pq ==> AtMost(e, f)
    ensures Decided(free, diagonal, start, e.cell, known) && NoneNearer(known, at, e.cell)
  {
    assert pq[e] > 0;
    forall c | c in known && c !in at
      ensures e.d <= known[c]
    {
      assert Entry(known[c], c) in pq;
    }
    forall p | IsPath(free, start, e.cell, p)
      ensures known[e.cell] <= Cost(diagonal, p)
    {
      WalksAreCovered(free, diagonal, start, known, prev, at, e.d, p);
    }
  }

  /** An empty queue decides every cell. */
  lemma EmptyQueueDecides(free: set<Cell>, diagonal: real, start: Cell, goal: Cell, known: map<Cell, real>,
                          prev: map<Cell, Cell>, at: map<Cell, nat>)
    requires diagonal > 0.0 && Settled(free, diagonal, start, known, prev, at, multiset{})
    ensures Decided(free, diagonal, start, goal, known) && NoneNearer(known, at, goal)
  {
    forall c | c in known
      ensures c in at
    {
      assert known[c] >= 0.0;
    }
    forall p | IsPath(free, start, goal, p)
      ensures goal in known && known[goal] <= Cost(diagonal, p)
    {
      WalksAreCovered(free, diagonal, start, known, prev, at, Cost(diagonal, p) + 1.0, p);
    }
  }

  /** What a decided goal says about paths. */
  lemma Verdict(free: set<Cell>, diagonal: real, start: Cell, goal: Cell, known: map<Cell, real>)
    requires Decided(free, diagonal, start, goal, known)
    ensures goal !in known ==> !exists p :: IsPath(free, start, goal, p)
    ensures goal in known ==>
              forall p :: IsPath(free, start, goal, p) && Cost(diagonal, p) == known[goal] ==>
                Shortest(free, diagonal, start, goal, p)
  {
  }

  /** Follows `prev` back from the goal; every step goes to an earlier expanded cell. */
  method Trace(prev: map<Cell, Cell>, start: Cell, goal: Cell, ghost free: set<Cell>, ghost diagonal: real,
               ghost known: map<Cell, real>, ghost at: map<Cell, nat>, ghost expanded: seq<Cell>,
               ghost pq: multiset<Entry>)
    returns (path: seq<Cell>)
    requires Settled(free, diagonal, start, known, prev, at, pq) && Numbered(at, expanded) && goal in known
    ensures IsPath(free, start, goal, path) && Cost(diagonal, path) == known[goal]
    ensures FollowsBack(path, start, prev) && ExpandedUpToLast(path, at)
  {
    hide Queued, RelaxedFrom;
    var back, node := [goal], goal;
    assert FollowsBack(Reversed(back), start, prev) && ExpandedUpToLast(Reversed(back), at);
    hide FollowsBack, ExpandedUpToLast, Step, Cost;
    assert Cost(diagonal, Reversed(back)) == 0.0 by { NoLength(diagonal, Reversed(back)); }
    ghost var age := if goal in at then at[goal] else |expanded|;
    while node != start
      invariant node in known && (node in at || node == goal)
      invariant age == if node in at then at[node] else |expanded|
      invariant IsPath(free, node, goal, Reversed(back))
      invariant known[node] + Cost(diagonal, Reversed(back)) == known[goal]
      invariant FollowsBack(Reversed(back), start, prev) && ExpandedUpToLast(Reversed(back), at)
      decreases age
    {
      ghost var walk := Reversed(back);
      var before := prev[node];
      CostPrepend(diagonal, before, walk);
      OneStepBack(before, walk, start, prev, at);
      back := back + [before];
      assert Reversed(back) == [before] + walk;
      age := at[before];
      node := before;
    }
    path := Reversed(back);
  }

  /**
   A shortest path from start to goal over the free cells of the mask, or None when
   there is none.  `expanded` lists the cells in the order of their expansion.  Of several
   shortest paths it is the one that comes from the first cell at every step.
   */
  method ShortestPath(mask: array2<bool>, start: Cell, goal: Cell, diagonal: real)
    returns (path: Option<seq<Cell>>, ghost expanded: seq<Cell>)
    requires InBounds(mask, start) && InBounds(mask, goal) && diagonal > 0.0
    ensures path.None? <==> !exists p :: IsPath(TrueCells(mask), start, goal, p)
    ensures path.Some? ==>
              && Shortest(TrueCells(mask), diagonal, start, goal, path.value)
              && FirstChoice(TrueCells(mask), diagonal, start, path.value)
    ensures forall i, j :: 0 <= i < j < |expanded| ==> expanded[i] != expanded[j]
  {
    hide Settled, Searching, Ranked, Numbered, TrueCells, AtMost, Decided, IsPath, Shortest, FirstChoice, FollowsBack;
    ghost var free := TrueCells(mask);
    var dist := new Distance[mask.Length0, mask.Length1]((i, j) => Infinite);
    dist[start.r, start.c] := Finite(0.0);
    var prev: map<Cell, Cell> := map[];
    var pq := multiset{Entry(0.0, start)};
    ghost var known: map<Cell, real>, at: map<Cell, nat> := map[start := 0.0], map[];
    expanded := [];
    StartSettled(free, diagonal, start);
    StartRanked(free, diagonal, start);
    while |pq| > 0
      invariant Records(dist, known) && TrueCells(mask) == free && Numbered(at, expanded)
      invariant Settled(free, diagonal, start, known, prev, at, pq) && Ranked(free, diagonal, start, known, prev, at, pq)
      decreases free + {start} - at.Keys, |pq|
    {
      var e, rest := HeapPop(pq);
      DropKeeps(free, diagonal, start, known, prev, at, pq, e);
      if e.d > dist[e.cell.r, e.cell.c].metres {
        DropRanked(free, diagonal, start, known, prev, at, pq, e);
        pq := rest;
        continue;
      }
      if e.cell == goal {
        GoalPoppedDecides(free, diagonal, start, known, prev, at, pq, e);
        break;
      }
      PopKeeps(free, diagonal, start, known, prev, at, expanded, pq, e);
      NextIsRanked(free, diagonal, start, known, prev, at, expanded, pq, e);
      at, expanded := at[e.cell := |expanded|], expanded + [e.cell];
      prev, pq, known := Expand(mask, diagonal, e.cell, e.d, dist, prev, rest, start, known, at);
    }
    if |pq| == 0 {
      assert pq == multiset{};
      EmptyQueueDecides(free, diagonal, start, goal, known, prev, at);
    }
    NumberedOnce(at, expanded);
    Verdict(free, diagonal, start, goal, known);
    if dist[goal.r, goal.c].Infinite? {
      return None, expanded;
    }
    var found := Trace(prev, start, goal, free, diagonal, known, at, expanded, pq);
    assert IsPath(TrueCells(mask), start, goal, found);
    TracedIsFirstChoice(free, diagonal, start, goal, known, prev, at, expanded, pq, found);
    path := Some(found);
  }
}
