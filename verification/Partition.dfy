/**
 Roles for the captured positions: inside each stratum the valid positions, in a fixed
 order of their keys, take the role quotas one after the other.
 */
module Partition {
  import opened Options
  import opened Filtering
  import opened Quotas
  import opened Sorting

  datatype Role = FinalAudit | DDev | DR | DMu | Unused | Excluded

  const ORDER: seq<Role> := [FinalAudit, DDev, DR, DMu]

  /** A captured position: its headings, whether the footprint fits there, and its stratum. */
  datatype Position = Position(key: string, headings: nat, fits: bool, stratum: int)

  predicate Valid(p: Position) { p.headings == 4 && p.fits }

  /** One entry per key. */
  ghost predicate Pool(positions: seq<Position>) {
    && Distinct(positions)
    && forall p, q :: p in positions && q in positions && p.key == q.key ==> p == q
  }

  function MembersOf(positions: seq<Position>, stratum: int): seq<Position> {
    Filter(positions, (p: Position) => Valid(p) && p.stratum == stratum)
  }

  /** The order of the hashed keys, given by their ranks. */
  function InOrder(rank: string -> nat): (Position, Position) -> bool {
    (p: Position, q: Position) => rank(p.key) <= rank(q.key)
  }

  function Queue(positions: seq<Position>, stratum: int, rank: string -> nat): seq<Position> {
    Sorted(MembersOf(positions, stratum), InOrder(rank))
  }

  // ---------------------------------------------------------------- quotas along a queue

  /** How many places the first r quotas take. */
  function Start(q: seq<nat>, r: nat): nat
    requires r <= |q|
  {
    if r == 0 then 0 else Start(q, r - 1) + q[r - 1]
  }

  /** The role of the place k of a queue. */
  function RoleAt(q: seq<nat>, k: nat): Role
    requires |q| == |ORDER|
  {
    if k < Start(q, 1) then ORDER[0]
    else if k < Start(q, 2) then ORDER[1]
    else if k < Start(q, 3) then ORDER[2]
    else if k < Start(q, 4) then ORDER[3]
    else Unused
  }

  lemma {:induction false} StartGrows(q: seq<nat>, r: nat, t: nat)
    requires r <= t <= |q|
    ensures Start(q, r) <= Start(q, t)
  {
    if r < t {
      StartGrows(q, r, t - 1);
    }
  }

  /** A role holds exactly the places between its start and the next one's. */
  lemma RoleHoldsItsPlaces(q: seq<nat>, k: nat, r: nat)
    requires |q| == |ORDER| && r < |ORDER|
    ensures RoleAt(q, k) == ORDER[r] <==> Start(q, r) <= k < Start(q, r + 1)
    ensures RoleAt(q, k) == Unused <==> k >= Start(q, |ORDER|)
  {
    StartGrows(q, 0, 1);
    StartGrows(q, 1, 2);
    StartGrows(q, 2, 3);
    StartGrows(q, 3, 4);
  }

  /** How many of the first n places have the role r. */
  ghost function Holders(q: seq<nat>, n: nat, role: Role): nat
    requires |q| == |ORDER|
  {
    if n == 0 then 0 else Holders(q, n - 1, role) + if RoleAt(q, n - 1) == role then 1 else 0
  }

  function Least(a: nat, b: nat): nat { if a <= b then a else b }

  /** Each role gets its quota or what the earlier roles leave, whichever is less. */
  lemma {:induction false} RoleGetsQuotaOrRest(q: seq<nat>, n: nat, r: nat)
    requires |q| == |ORDER| && r < |ORDER|
    ensures Holders(q, n, ORDER[r]) == Least(q[r], if n > Start(q, r) then n - Start(q, r) else 0)
  {
    hide RoleAt;
    if n > 0 {
      RoleGetsQuotaOrRest(q, n - 1, r);
      RoleHoldsItsPlaces(q, n - 1, r);
    }
  }

  /** A role short of its quota leaves nothing for the later roles, nor unused. */
  lemma ShortageHitsTheLatest(q: seq<nat>, n: nat, r: nat, later: nat)
    requires |q| == |ORDER| && r < later < |ORDER| && Holders(q, n, ORDER[r]) < q[r]
    ensures Holders(q, n, ORDER[later]) == 0
    ensures forall k :: 0 <= k < n ==> RoleAt(q, k) != Unused && RoleAt(q, k) != ORDER[later]
  {
    hide RoleAt;
    RoleGetsQuotaOrRest(q, n, r);
    RoleGetsQuotaOrRest(q, n, later);
    StartGrows(q, r + 1, later);
    StartGrows(q, r + 1, |ORDER|);
    forall k: nat | k < n
      ensures RoleAt(q, k) != Unused && RoleAt(q, k) != ORDER[later]
    {
      RoleHoldsItsPlaces(q, k, later);
    }
  }

  // ---------------------------------------------------------------- assigning one stratum

  ghost predicate Assigned(roles: map<string, Role>, queue: seq<Position>, q: seq<nat>, n: nat)
    requires n <= |queue| && |q| == |ORDER|
  {
    forall k: nat :: k < n ==> queue[k].key in roles && roles[queue[k].key] == RoleAt(q, k)
  }

  ghost predicate KeysDiffer(queue: seq<Position>) {
    forall i, j :: 0 <= i < j < |queue| ==> queue[i].key != queue[j].key
  }

  /** Only the keys of the first n in the queue may have changed. */
  ghost predicate OthersKept(before: map<string, Role>, after: map<string, Role>, queue: seq<Position>, n: nat)
    requires n <= |queue|
  {
    && before.Keys <= after.Keys
    && forall key :: key in after ==> AmongFirst(queue, n, key) || (key in before && after[key] == before[key])
  }

  ghost predicate AmongFirst(queue: seq<Position>, n: nat, key: string)
    requires n <= |queue|
  {
    exists k: nat :: k < n && queue[k].key == key
  }

  /** Gives the places from `cursor` up to `stop` one role. */
  method GiveRole(roles: map<string, Role>, queue: seq<Position>, ghost q: seq<nat>, cursor: nat, stop: nat, role: Role)
    returns (more: map<string, Role>)
    requires cursor <= stop <= |queue| && |q| == |ORDER| && KeysDiffer(queue)
    requires Assigned(roles, queue, q, cursor) && forall k: nat :: cursor <= k < stop ==> RoleAt(q, k) == role
    ensures Assigned(more, queue, q, stop) && OthersKept(roles, more, queue, stop)
  {
    hide RoleAt;
    more := roles;
    for k := cursor to stop
      invariant Assigned(more, queue, q, k) && OthersKept(roles, more, queue, k)
    {
      more := more[queue[k].key := role];
    }
  }

  method AssignStratum(roles: map<string, Role>, queue: seq<Position>, q: seq<nat>) returns (more: map<string, Role>)
    requires |q| == |ORDER| && KeysDiffer(queue)
    ensures Assigned(more, queue, q, |queue|) && OthersKept(roles, more, queue, |queue|)
  {
    hide RoleAt, OthersKept, Assigned, KeysDiffer;
    more := roles;
    var cursor := 0;
    NothingAssigned(roles, queue, q);
    for r := 0 to |ORDER|
      invariant cursor == Least(|queue|, Start(q, r))
      invariant Assigned(more, queue, q, cursor) && OthersKept(roles, more, queue, cursor)
    {
      var stop := Least(|queue|, cursor + q[r]);
      forall k: nat | cursor <= k < stop
        ensures RoleAt(q, k) == ORDER[r]
      {
        RoleHoldsItsPlaces(q, k, r);
      }
      ghost var was := more;
      more := GiveRole(more, queue, q, cursor, stop, ORDER[r]);
      KeptThrough(roles, was, more, queue, cursor, stop);
      cursor := stop;
    }
    forall k: nat | cursor <= k < |queue|
      ensures RoleAt(q, k) == Unused
    {
      RoleHoldsItsPlaces(q, k, 0);
    }
    ghost var was := more;
    more := GiveRole(more, queue, q, cursor, |queue|, Unused);
    KeptThrough(roles, was, more, queue, cursor, |queue|);
  }

  lemma NothingAssigned(roles: map<string, Role>, queue: seq<Position>, q: seq<nat>)
    requires |q| == |ORDER|
    ensures Assigned(roles, queue, q, 0) && OthersKept(roles, roles, queue, 0)
  {
  }

  lemma KeptThrough(
    a: map<string, Role>, b: map<string, Role>, c: map<string, Role>, queue: seq<Position>, m: nat, n: nat)
    requires m <= n <= |queue| && OthersKept(a, b, queue, m) && OthersKept(b, c, queue, n)
    ensures OthersKept(a, c, queue, n)
  {
    forall key | key in c
      ensures AmongFirst(queue, n, key) || (key in a && c[key] == a[key])
    {
      if !AmongFirst(queue, n, key) {
        assert key in b && c[key] == b[key];
        assert !AmongFirst(queue, m, key);
      }
    }
  }

  // ---------------------------------------------------------------- the whole pool

  function QuotasOf(quota: seq<seq<nat>>, t: nat): (q: seq<nat>)
    requires |quota| == |ORDER| && forall r :: 0 <= r < |ORDER| ==> t < |quota[r]|
    ensures |q| == |ORDER|
  {
    [quota[0][t], quota[1][t], quota[2][t], quota[3][t]]
  }

  /** One quota for every role and stratum. */
  ghost predicate Complete(quota: seq<seq<nat>>, strata: seq<int>) {
    |quota| == |ORDER| && forall r :: 0 <= r < |ORDER| ==> |quota[r]| == |strata|
  }

  /** The roles once the first n strata are done. */
  ghost predicate PartitionUpTo(
    positions: seq<Position>, strata: seq<int>, rank: string -> nat, quota: seq<seq<nat>>,
    roles: map<string, Role>, n: nat)
    requires Complete(quota, strata) && n <= |strata|
  {
    && (forall key :: key in roles ==> exists p :: p in positions && p.key == key)
    && (forall p :: p in positions && !Valid(p) ==> p.key in roles && roles[p.key] == Excluded)
    && (forall t: nat :: t < n ==>
          var queue := Queue(positions, strata[t], rank);
          Assigned(roles, queue, QuotasOf(quota, t), |queue|))
  }

  lemma QueueMembers(positions: seq<Position>, stratum: int, rank: string -> nat, p: Position)
    ensures p in Queue(positions, stratum, rank) <==> p in positions && Valid(p) && p.stratum == stratum
  {
    SortedMembers(MembersOf(positions, stratum), InOrder(rank));
    FilterMembers(positions, (p: Position) => Valid(p) && p.stratum == stratum, p);
  }

  lemma QueueIsDistinct(positions: seq<Position>, stratum: int, rank: string -> nat)
    requires Pool(positions)
    ensures Distinct(Queue(positions, stratum, rank)) && KeysDiffer(Queue(positions, stratum, rank))
  {
    var queue := Queue(positions, stratum, rank);
    FilterKeepsDistinct(positions, (p: Position) => Valid(p) && p.stratum == stratum);
    SortedKeepsElements(MembersOf(positions, stratum), InOrder(rank));
    DistinctIgnoresOrder(MembersOf(positions, stratum), queue);
    forall i, j | 0 <= i < j < |queue|
      ensures queue[i].key != queue[j].key
    {
      QueueMembers(positions, stratum, rank, queue[i]);
      QueueMembers(positions, stratum, rank, queue[j]);
    }
  }

  /** Assigning one more stratum leaves the roles of all other positions alone. */
  lemma OtherPositionsKept(
    positions: seq<Position>, stratum: int, rank: string -> nat, before: map<string, Role>, after: map<string, Role>,
    p: Position)
    requires Pool(positions) && p in positions && (!Valid(p) || p.stratum != stratum) && p.key in before
    requires var queue := Queue(positions, stratum, rank);
             OthersKept(before, after, queue, |queue|)
    ensures p.key in after && after[p.key] == before[p.key]
  {
    var queue := Queue(positions, stratum, rank);
    hide Queue, Valid, Distinct;
    if AmongFirst(queue, |queue|, p.key) {
      var k: nat :| k < |queue| && queue[k].key == p.key;
      QueueMembers(positions, stratum, rank, queue[k]);
    }
  }

  lemma StratumDone(
    positions: seq<Position>, strata: seq<int>, rank: string -> nat, quota: seq<seq<nat>>,
    before: map<string, Role>, after: map<string, Role>, n: nat)
    requires Pool(positions) && Complete(quota, strata) && n < |strata| && Distinct(strata)
    requires PartitionUpTo(positions, strata, rank, quota, before, n)
    requires var queue := Queue(positions, strata[n], rank);
             Assigned(after, queue, QuotasOf(quota, n), |queue|) && OthersKept(before, after, queue, |queue|)
    ensures PartitionUpTo(positions, strata, rank, quota, after, n + 1)
  {
    hide Queue, RoleAt, QuotasOf, Pool;
    forall key | key in after
      ensures exists p :: p in positions && p.key == key
    {
      KeyIsKnown(positions, strata[n], rank, before, after, key);
    }
    forall p | p in positions && !Valid(p)
      ensures p.key in after && after[p.key] == Excluded
    {
      OtherPositionsKept(positions, strata[n], rank, before, after, p);
    }
    forall t: nat | t < n
      ensures var queue := Queue(positions, strata[t], rank);
              Assigned(after, queue, QuotasOf(quota, t), |queue|)
    {
      var queue := Queue(positions, strata[t], rank);
      forall k: nat | k < |queue|
        ensures queue[k].key in after && after[queue[k].key] == RoleAt(QuotasOf(quota, t), k)
      {
        QueueMembers(positions, strata[t], rank, queue[k]);
        OtherPositionsKept(positions, strata[n], rank, before, after, queue[k]);
      }
    }
  }

  lemma KeyIsKnown(
    positions: seq<Position>, stratum: int, rank: string -> nat, before: map<string, Role>, after: map<string, Role>,
    key: string)
    requires var queue := Queue(positions, stratum, rank);
             OthersKept(before, after, queue, |queue|)
    requires key in after && (key in before ==> exists p :: p in positions && p.key == key)
    ensures exists p :: p in positions && p.key == key
  {
    var queue := Queue(positions, stratum, rank);
    hide Queue;
    if AmongFirst(queue, |queue|, key) {
      var k: nat :| k < |queue| && queue[k].key == key;
      QueueMembers(positions, stratum, rank, queue[k]);
    }
  }

  /** The valid positions, by stratum. */
  ghost predicate Gathered(positions: seq<Position>, members: map<int, seq<Position>>) {
    forall s ::
      && MembersOf(positions, s) == ListIn(members, s)
      && (s in members ==> members[s] != [])
  }

  function ListIn(members: map<int, seq<Position>>, s: int): seq<Position> {
    if s in members then members[s] else []
  }

  /** The roles before any stratum is done. */
  ghost predicate ExcludedOnly(positions: seq<Position>, roles: map<string, Role>) {
    && (forall key :: key in roles ==> exists p :: p in positions && p.key == key)
    && (forall p :: p in positions && !Valid(p) ==> p.key in roles && roles[p.key] == Excluded)
  }

  lemma GatherOne(positions: seq<Position>, p: Position, members: map<int, seq<Position>>)
    requires Gathered(positions, members)
    ensures Gathered(positions + [p],
              if Valid(p) then members[p.stratum := ListIn(members, p.stratum) + [p]] else members)
  {
    hide MembersOf, Valid;
    forall s
      ensures MembersOf(positions + [p], s) ==
              MembersOf(positions, s) + if Valid(p) && p.stratum == s then [p] else []
    {
      MembersAppend(positions, p, s);
    }
  }

  lemma MembersAppend(positions: seq<Position>, p: Position, s: int)
    ensures MembersOf(positions + [p], s) == MembersOf(positions, s) + if Valid(p) && p.stratum == s then [p] else []
  {
    FilterAppend(positions, p, (p: Position) => Valid(p) && p.stratum == s);
  }

  lemma ExcludeOne(positions: seq<Position>, p: Position, roles: map<string, Role>)
    requires ExcludedOnly(positions, roles)
    ensures ExcludedOnly(positions + [p], if Valid(p) then roles else roles[p.key := Excluded])
  {
    hide Valid;
    var more := positions + [p];
    var after := if Valid(p) then roles else roles[p.key := Excluded];
    assert more[|positions|] == p;
    forall key | key in after
      ensures exists q :: q in more && q.key == key
    {
      if key == p.key {
        assert p in more;
      } else {
        var q :| q in positions && q.key == key;
        assert q in more;
      }
    }
  }

  method Collect(positions: seq<Position>) returns (members: map<int, seq<Position>>, roles: map<string, Role>)
    ensures Gathered(positions, members) && ExcludedOnly(positions, roles)
  {
    members, roles := map[], map[];
    hide Gathered, ExcludedOnly, Valid, MembersOf;
    NothingCollected();
    for i := 0 to |positions|
      invariant Gathered(positions[..i], members) && ExcludedOnly(positions[..i], roles)
    {
      var p := positions[i];
      GatherOne(positions[..i], p, members);
      ExcludeOne(positions[..i], p, roles);
      assert positions[..i + 1] == positions[..i] + [p];
      if Valid(p) {
        members := members[p.stratum := ListIn(members, p.stratum) + [p]];
      } else {
        roles := roles[p.key := Excluded];
      }
    }
    assert positions[..|positions|] == positions;
  }

  lemma NothingCollected()
    ensures Gathered([], map[]) && ExcludedOnly([], map[])
  {
  }

  ghost predicate AllHaveArea(positions: seq<Position>, strata: seq<int>) {
    forall p :: p in positions && Valid(p) ==> p.stratum in strata
  }

  lemma StrataOfMembers(positions: seq<Position>, members: map<int, seq<Position>>, strata: seq<int>)
    requires Gathered(positions, members)
    ensures AllHaveArea(positions, strata) <==> forall s :: s in members ==> s in strata
  {
    forall s, p | p in positions && Valid(p) && p.stratum == s
      ensures s in members
    {
      FilterMembers(positions, (p: Position) => Valid(p) && p.stratum == s, p);
    }
    forall s | s in members && AllHaveArea(positions, strata)
      ensures s in strata
    {
      FilterMembers(positions, (p: Position) => Valid(p) && p.stratum == s, members[s][0]);
    }
  }

  /** The quotas: every role's total spread over the strata by their areas. */
  ghost predicate QuotasByArea(quota: seq<seq<nat>>, totals: seq<nat>, areas: seq<real>)
    requires areas == [] || SumReal(areas) != 0.0
  {
    && |quota| == |totals|
    && forall r :: 0 <= r < |totals| ==>
         Apportioned(Shares(totals[r], areas), quota[r]) && (areas != [] ==> SumInt(quota[r]) == totals[r])
  }

  method SpreadTotals(totals: seq<nat>, areas: seq<real>) returns (quota: seq<seq<nat>>)
    requires areas == [] || SumReal(areas) > 0.0
    requires forall i :: 0 <= i < |areas| ==> areas[i] >= 0.0
    ensures QuotasByArea(quota, totals, areas)
  {
    hide SumReal, SumInt, Apportioned, Shares;
    quota := [];
    for r := 0 to |totals|
      invariant QuotasByArea(quota, totals[..r], areas)
    {
      var q := LargestRemainder(totals[r], areas);
      QuotasAreNatural(totals[r], areas, q);
      quota := quota + [q];
    }
    assert totals[..|totals|] == totals;
  }

  /** The role of every position of the pool; None when a valid position's stratum has no area. */
  method PartitionPool(
    positions: seq<Position>, strata: seq<int>, areas: seq<real>, totals: seq<nat>, rank: string -> nat)
    returns (roles: Option<map<string, Role>>, quota: seq<seq<nat>>)
    requires Pool(positions) && Distinct(strata) && |areas| == |strata| && |totals| == |ORDER|
    requires areas == [] || SumReal(areas) > 0.0
    requires forall i :: 0 <= i < |areas| ==> areas[i] >= 0.0
    ensures roles.Some? <==> AllHaveArea(positions, strata)
    ensures roles.Some? ==>
              && QuotasByArea(quota, totals, areas) && Complete(quota, strata)
              && PartitionUpTo(positions, strata, rank, quota, roles.value, |strata|)
  {
    hide SumReal, Valid, MembersOf, Gathered, ExcludedOnly, PartitionUpTo, AllHaveArea, Distinct, Pool, RoleAt, QuotasByArea, Sorted;
    var members, excluded := Collect(positions);
    StrataOfMembers(positions, members, strata);
    if exists s :: s in members && s !in strata {
      return None, [];
    }
    quota := SpreadTotals(totals, areas);
    QuotasAreComplete(quota, totals, areas, strata);
    var given := excluded;
    ExcludedAtFirst(positions, strata, rank, quota, given);
    for t := 0 to |strata|
      invariant PartitionUpTo(positions, strata, rank, quota, given, t)
    {
      var s := strata[t];
      var queue := Sorted(ListIn(members, s), InOrder(rank));
      QueueIsGathered(positions, members, s, rank);
      QueueIsDistinct(positions, s, rank);
      ghost var before := given;
      given := AssignStratum(given, queue, QuotasOf(quota, t));
      StratumDone(positions, strata, rank, quota, before, given, t);
    }
    roles := Some(given);
  }

  lemma QuotasAreComplete(quota: seq<seq<nat>>, totals: seq<nat>, areas: seq<real>, strata: seq<int>)
    requires areas == [] || SumReal(areas) != 0.0
    requires QuotasByArea(quota, totals, areas) && |totals| == |ORDER| && |areas| == |strata|
    ensures Complete(quota, strata)
  {
    hide SumReal, SumInt;
  }

  lemma ExcludedAtFirst(
    positions: seq<Position>, strata: seq<int>, rank: string -> nat, quota: seq<seq<nat>>, roles: map<string, Role>)
    requires Complete(quota, strata) && ExcludedOnly(positions, roles)
    ensures PartitionUpTo(positions, strata, rank, quota, roles, 0)
  {
  }

  lemma QueueIsGathered(
    positions: seq<Position>, members: map<int, seq<Position>>, s: int, rank: string -> nat)
    requires Gathered(positions, members)
    ensures Queue(positions, s, rank) == Sorted(ListIn(members, s), InOrder(rank))
  {
    hide MembersOf, InOrder, Sorted;
  }

  /** Every position of the pool has a role, nothing else has one, and only the invalid are excluded. */
  lemma PartitionCoversThePool(
    positions: seq<Position>, strata: seq<int>, rank: string -> nat, quota: seq<seq<nat>>, roles: map<string, Role>,
    p: Position)
    requires Complete(quota, strata) && AllHaveArea(positions, strata) && p in positions
    requires PartitionUpTo(positions, strata, rank, quota, roles, |strata|)
    ensures p.key in roles && (roles[p.key] == Excluded <==> !(p.headings == 4 && p.fits))
    ensures forall key :: key in roles ==> exists other :: other in positions && other.key == key
  {
    if Valid(p) {
      var t: nat :| t < |strata| && strata[t] == p.stratum;
      var queue := Queue(positions, strata[t], rank);
      QueueMembers(positions, strata[t], rank, p);
      hide Queue, Valid;
      var k: nat :| k < |queue| && queue[k] == p;
      assert roles[queue[k].key] == RoleAt(QuotasOf(quota, t), k);
    }
  }

  /** A queue is served in the order of its keys: final audit first, then D_dev, D_R and D_mu, the rest unused. */
  lemma RolesAlongTheQueue(
    positions: seq<Position>, strata: seq<int>, rank: string -> nat, quota: seq<seq<nat>>, roles: map<string, Role>,
    t: nat, p: Position, k: nat)
    requires Complete(quota, strata) && PartitionUpTo(positions, strata, rank, quota, roles, |strata|)
    requires t < |strata| && k < |Queue(positions, strata[t], rank)| && p == Queue(positions, strata[t], rank)[k]
    ensures p in positions && p.headings == 4 && p.fits && p.stratum == strata[t] && p.key in roles
    ensures var audit, dev, r, mu := quota[0][t], quota[1][t], quota[2][t], quota[3][t];
            roles[p.key] == if k < audit then FinalAudit
                            else if k < audit + dev then DDev
                            else if k < audit + dev + r then DR
                            else if k < audit + dev + r + mu then DMu
                            else Unused
    ensures forall j :: 0 <= j < k ==> rank(Queue(positions, strata[t], rank)[j].key) <= rank(p.key)
  {
    var queue, q := Queue(positions, strata[t], rank), QuotasOf(quota, t);
    QueueMembers(positions, strata[t], rank, p);
    SortedSorts(MembersOf(positions, strata[t]), InOrder(rank));
    assert SortedBy(queue, InOrder(rank));
    hide Queue;
    assert roles[queue[k].key] == RoleAt(q, k);
    assert Start(q, 1) == Start(q, 0) + q[0] && Start(q, 2) == Start(q, 1) + q[1];
    assert Start(q, 3) == Start(q, 2) + q[2] && Start(q, 4) == Start(q, 3) + q[3];
    forall j | 0 <= j < k
      ensures rank(queue[j].key) <= rank(p.key)
    {
      assert InOrder(rank)(queue[j], queue[k]);
    }
  }

  /** With one rank per key, the queues do not depend on the order of the pool. */
  lemma OrderOfPoolDoesNotMatter(a: seq<Position>, b: seq<Position>, stratum: int, rank: string -> nat)
    requires multiset(a) == multiset(b) && Pool(a)
    requires forall p, q :: p in a && q in a && rank(p.key) == rank(q.key) ==> p.key == q.key
    ensures Queue(a, stratum, rank) == Queue(b, stratum, rank)
  {
    DistinctIgnoresOrder(a, b);
    forall p
      ensures p in a <==> p in b
    {
      SameMembers(a, b, p);
    }
    assert Pool(b);
    QueueHasNoTies(a, stratum, rank);
    QueueHasNoTies(b, stratum, rank);
    forall p
      ensures p in Queue(a, stratum, rank) <==> p in Queue(b, stratum, rank)
    {
      QueueMembers(a, stratum, rank, p);
      QueueMembers(b, stratum, rank, p);
    }
    StrictlySortedIsUnique(Queue(a, stratum, rank), Queue(b, stratum, rank), InOrder(rank));
  }

  lemma QueueHasNoTies(positions: seq<Position>, stratum: int, rank: string -> nat)
    requires Pool(positions)
    requires forall p, q :: p in positions && q in positions && rank(p.key) == rank(q.key) ==> p.key == q.key
    ensures StrictlySorted(Queue(positions, stratum, rank), InOrder(rank))
  {
    var queue := Queue(positions, stratum, rank);
    SortedSorts(MembersOf(positions, stratum), InOrder(rank));
    QueueIsDistinct(positions, stratum, rank);
    forall i, j | 0 <= i < j < |queue|
      ensures rank(queue[i].key) < rank(queue[j].key)
    {
      assert InOrder(rank)(queue[i], queue[j]);
      QueueMembers(positions, stratum, rank, queue[i]);
      QueueMembers(positions, stratum, rank, queue[j]);
    }
  }

  // ---------------------------------------------------------------- how many positions get a role

  /** The positions of the stratum that hold the role. */
  ghost function RoleHolders(positions: seq<Position>, roles: map<string, Role>, stratum: int, role: Role): set<Position> {
    set p | p in positions && p.stratum == stratum && p.key in roles && roles[p.key] == role
  }

  ghost function PlacedAs(queue: seq<Position>, q: seq<nat>, role: Role, n: nat): set<Position>
    requires n <= |queue| && |q| == |ORDER|
  {
    if n == 0 then {} else PlacedAs(queue, q, role, n - 1) + if RoleAt(q, n - 1) == role then {queue[n - 1]} else {}
  }

  ghost predicate IsPlaced(queue: seq<Position>, q: seq<nat>, role: Role, n: nat, p: Position)
    requires n <= |queue| && |q| == |ORDER|
  {
    exists k: nat :: k < n && queue[k] == p && RoleAt(q, k) == role
  }

  lemma {:induction false} PlacedAsMembers(queue: seq<Position>, q: seq<nat>, role: Role, n: nat, p: Position)
    requires n <= |queue| && |q| == |ORDER|
    ensures p in PlacedAs(queue, q, role, n) <==> IsPlaced(queue, q, role, n, p)
  {
    hide RoleAt;
    if n > 0 {
      PlacedAsMembers(queue, q, role, n - 1, p);
      if IsPlaced(queue, q, role, n, p) && !(queue[n - 1] == p && RoleAt(q, n - 1) == role) {
        var k: nat :| k < n && queue[k] == p && RoleAt(q, k) == role;
        assert k < n - 1;
      }
    }
  }

  lemma NotPlacedBefore(queue: seq<Position>, q: seq<nat>, role: Role, n: nat)
    requires n < |queue| && |q| == |ORDER| && Distinct(queue)
    ensures queue[n] !in PlacedAs(queue, q, role, n)
  {
    hide RoleAt, PlacedAs;
    PlacedAsMembers(queue, q, role, n, queue[n]);
  }

  lemma PlaceOneMore(queue: seq<Position>, q: seq<nat>, role: Role, n: nat)
    requires n < |queue| && |q| == |ORDER|
    ensures PlacedAs(queue, q, role, n + 1) ==
            PlacedAs(queue, q, role, n) + if RoleAt(q, n) == role then {queue[n]} else {}
    ensures Holders(q, n + 1, role) == Holders(q, n, role) + if RoleAt(q, n) == role then 1 else 0
  {
    hide RoleAt;
  }

  lemma NothingPlaced(queue: seq<Position>, q: seq<nat>, role: Role)
    requires |q| == |ORDER|
    ensures PlacedAs(queue, q, role, 0) == {} && Holders(q, 0, role) == 0
  {
  }

  lemma {:induction false} PlacedAsCount(queue: seq<Position>, q: seq<nat>, role: Role, n: nat)
    requires n <= |queue| && |q| == |ORDER| && Distinct(queue)
    ensures |PlacedAs(queue, q, role, n)| == Holders(q, n, role)
  {
    hide RoleAt, Distinct, PlacedAs, Holders;
    if n == 0 {
      NothingPlaced(queue, q, role);
    } else {
      PlacedAsCount(queue, q, role, n - 1);
      NotPlacedBefore(queue, q, role, n - 1);
      PlaceOneMore(queue, q, role, n - 1);
      CountOneMore(PlacedAs(queue, q, role, n - 1), queue[n - 1], PlacedAs(queue, q, role, n), RoleAt(q, n - 1) == role);
    }
  }

  lemma CountOneMore(s: set<Position>, p: Position, more: set<Position>, added: bool)
    requires p !in s && more == s + if added then {p} else {}
    ensures |more| == |s| + if added then 1 else 0
  {
  }

  lemma HoldersAreTheirPlaces(
    positions: seq<Position>, strata: seq<int>, rank: string -> nat, quota: seq<seq<nat>>, roles: map<string, Role>,
    t: nat, role: Role)
    requires Pool(positions) && Complete(quota, strata) && t < |strata| && role in ORDER
    requires PartitionUpTo(positions, strata, rank, quota, roles, |strata|)
    ensures var queue := Queue(positions, strata[t], rank);
            RoleHolders(positions, roles, strata[t], role) == PlacedAs(queue, QuotasOf(quota, t), role, |queue|)
  {
    var queue, q := Queue(positions, strata[t], rank), QuotasOf(quota, t);
    QueueIsDistinct(positions, strata[t], rank);
    hide Queue, RoleAt, QuotasOf, Pool, Valid;
    assert Assigned(roles, queue, q, |queue|);
    forall p
      ensures p in RoleHolders(positions, roles, strata[t], role) <==> p in PlacedAs(queue, q, role, |queue|)
    {
      QueueMembers(positions, strata[t], rank, p);
      PlacedAsMembers(queue, q, role, |queue|, p);
      if p in queue {
        var k: nat :| k < |queue| && queue[k] == p;
        assert roles[queue[k].key] == RoleAt(q, k);
      }
    }
  }

  lemma QueueLength(positions: seq<Position>, stratum: int, rank: string -> nat)
    ensures |Queue(positions, stratum, rank)| == |MembersOf(positions, stratum)|
  {
    SortedMembers(MembersOf(positions, stratum), InOrder(rank));
  }

  /** In the pool itself: each role holds its quota of a stratum's positions or what the earlier roles leave. */
  lemma PositionsGetQuotaOrRest(
    positions: seq<Position>, strata: seq<int>, rank: string -> nat, quota: seq<seq<nat>>, roles: map<string, Role>,
    t: nat, r: nat)
    requires Pool(positions) && Complete(quota, strata) && t < |strata| && r < |ORDER|
    requires PartitionUpTo(positions, strata, rank, quota, roles, |strata|)
    ensures var q, n := QuotasOf(quota, t), |MembersOf(positions, strata[t])|;
            |RoleHolders(positions, roles, strata[t], ORDER[r])| == Least(q[r], if n > Start(q, r) then n - Start(q, r) else 0)
  {
    hide Queue, RoleAt, QuotasOf, Pool, PartitionUpTo, MembersOf, Distinct;
    var queue, q := Queue(positions, strata[t], rank), QuotasOf(quota, t);
    QueueIsDistinct(positions, strata[t], rank);
    QueueLength(positions, strata[t], rank);
    HoldersAreTheirPlaces(positions, strata, rank, quota, roles, t, ORDER[r]);
    PlacedAsCount(queue, q, ORDER[r], |queue|);
    RoleGetsQuotaOrRest(q, |queue|, r);
  }

  /** A role short of its quota in a stratum leaves no position there for the later roles, and none unused. */
  lemma ShortageLeavesNothing(
    positions: seq<Position>, strata: seq<int>, rank: string -> nat, quota: seq<seq<nat>>, roles: map<string, Role>,
    t: nat, r: nat, later: nat, p: Position)
    requires Pool(positions) && Complete(quota, strata) && t < |strata| && r < later < |ORDER|
    requires PartitionUpTo(positions, strata, rank, quota, roles, |strata|)
    requires |RoleHolders(positions, roles, strata[t], ORDER[r])| < QuotasOf(quota, t)[r]
    requires p in positions && Valid(p) && p.stratum == strata[t]
    ensures p.key in roles && roles[p.key] != ORDER[later] && roles[p.key] != Unused
  {
    hide Queue, RoleAt, QuotasOf, Pool, MembersOf, Valid, PartitionUpTo, RoleHolders;
    var q, n := QuotasOf(quota, t), |MembersOf(positions, strata[t])|;
    PositionsGetQuotaOrRest(positions, strata, rank, quota, roles, t, r);
    var k := PlaceOf(positions, strata, rank, quota, roles, t, p);
    RoleGetsQuotaOrRest(q, n, r);
    ShortageHitsTheLatest(q, n, r, later);
  }

  /** The place that gave a valid position its role. */
  lemma PlaceOf(
    positions: seq<Position>, strata: seq<int>, rank: string -> nat, quota: seq<seq<nat>>, roles: map<string, Role>,
    t: nat, p: Position) returns (k: nat)
    requires Complete(quota, strata) && t < |strata| && PartitionUpTo(positions, strata, rank, quota, roles, |strata|)
    requires p in positions && Valid(p) && p.stratum == strata[t]
    ensures k < |MembersOf(positions, strata[t])| && p.key in roles && roles[p.key] == RoleAt(QuotasOf(quota, t), k)
  {
    var queue, q := Queue(positions, strata[t], rank), QuotasOf(quota, t);
    QueueMembers(positions, strata[t], rank, p);
    QueueLength(positions, strata[t], rank);
    hide Queue, RoleAt, QuotasOf, MembersOf, Valid;
    assert Assigned(roles, queue, q, |queue|);
    k :| k < |queue| && queue[k] == p;
    assert roles[queue[k].key] == RoleAt(q, k);
  }
}
