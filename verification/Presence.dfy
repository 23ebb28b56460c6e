/**
 Detection of poses captured while the robot was absent: every pose in a run of
 consecutive empty poses of one session that spans enough distinct positions.
 */
module Presence {
  import opened Options
  import opened Sorting
  import opened Filtering

  /**
   One image row.  Sources and sessions are given by their rank in the order of their
   names; `inFrame` and `visible` are the row's two conditions.
   */
  datatype Row = Row(source: nat, session: nat, pose: int, plan: int, position: string, inFrame: bool, visible: bool)

  datatype Key = Key(source: nat, session: nat, pose: int, plan: int)

  /** A group of rows: one pose of one session. */
  datatype Pose = Pose(key: Key, position: string, empty: bool)

  function KeyOf(r: Row): Key { Key(r.source, r.session, r.pose, r.plan) }

  predicate SameSession(x: Pose, y: Pose) { x.key.source == y.key.source && x.key.session == y.key.session }

  // ---------------------------------------------------------------- runs of empty poses

  /** The poses from a up to b are empty and of one session. */
  ghost predicate EmptyRun(poses: seq<Pose>, a: nat, b: nat) {
    && a <= b <= |poses|
    && (forall k :: a <= k < b ==> poses[k].empty)
    && (forall k, m :: a <= k < b && a <= m < b ==> SameSession(poses[k], poses[m]))
  }

  function PositionsOf(run: seq<Pose>): set<string> {
    set x | x in run :: x.position
  }

  function Identities(run: seq<Pose>): set<(nat, int)> {
    set x | x in run :: (x.key.source, x.key.plan)
  }

  /** An empty run among the first n poses that contains pose j and spans enough positions. */
  ghost predicate LongRun(poses: seq<Pose>, n: nat, least: int, j: nat, a: nat, b: nat)
    requires n <= |poses|
  {
    a <= j < b <= n && EmptyRun(poses, a, b) && |PositionsOf(poses[a..b])| >= least
  }

  ghost predicate InLongRun(poses: seq<Pose>, n: nat, least: int, j: nat)
    requires n <= |poses|
  {
    exists a: nat, b: nat :: LongRun(poses, n, least, j, a, b)
  }

  ghost predicate Rejected(poses: seq<Pose>, n: nat, least: int, id: (nat, int))
    requires n <= |poses|
  {
    exists j: nat :: j < n && (poses[j].key.source, poses[j].key.plan) == id && InLongRun(poses, n, least, j)
  }

  /** [a, b) is the run that ends at b: it cannot be extended to the left. */
  ghost predicate RunUpTo(poses: seq<Pose>, a: nat, b: nat) {
    && a <= b && EmptyRun(poses, a, b)
    && (a > 0 ==> !EmptyRun(poses, a - 1, b))
  }

  lemma PositionsGrow(poses: seq<Pose>, a: nat, b: nat, c: nat)
    requires c <= a <= b <= |poses|
    ensures |PositionsOf(poses[a..b])| <= |PositionsOf(poses[c..b])|
  {
    var small, big := PositionsOf(poses[a..b]), PositionsOf(poses[c..b]);
    assert forall x :: x in poses[a..b] ==> x in poses[c..b] by {
      assert poses[c..b] == poses[c..a] + poses[a..b];
    }
    assert small <= big;
    assert big == small + (big - small);
  }

  /** A run that ends where the leftmost one ends starts no further left. */
  lemma RunsStartLater(poses: seq<Pose>, a: nat, b: nat, c: nat)
    requires RunUpTo(poses, a, b) && EmptyRun(poses, c, b)
    ensures a <= c
  {
    hide EmptyRun;
    if c < a {
      ShorterRun(poses, c, b, a - 1);
    }
  }

  lemma ShorterRun(poses: seq<Pose>, c: nat, b: nat, a: nat)
    requires EmptyRun(poses, c, b) && c <= a <= b
    ensures EmptyRun(poses, a, b)
  {
  }

  /** One more pose, which continues the run from a. */
  lemma RunContinues(poses: seq<Pose>, least: int, a: nat, n: nat, j: nat)
    requires n < |poses| && RunUpTo(poses, a, n + 1) && j <= n
    ensures InLongRun(poses, n + 1, least, j) <==>
            (j < n && InLongRun(poses, n, least, j)) || (a <= j && |PositionsOf(poses[a..n + 1])| >= least)
  {
    hide EmptyRun, PositionsOf;
    if InLongRun(poses, n + 1, least, j) {
      var c: nat, d: nat :| LongRun(poses, n + 1, least, j, c, d);
      if d <= n {
        assert LongRun(poses, n, least, j, c, d);
      } else {
        RunsStartLater(poses, a, n + 1, c);
        PositionsGrow(poses, c, n + 1, a);
      }
    }
    if j < n && InLongRun(poses, n, least, j) {
      var c: nat, d: nat :| LongRun(poses, n, least, j, c, d);
      assert LongRun(poses, n + 1, least, j, c, d);
    }
    if a <= j && |PositionsOf(poses[a..n + 1])| >= least {
      assert LongRun(poses, n + 1, least, j, a, n + 1);
    }
  }

  /** One more pose, which is not empty. */
  lemma RunBreaks(poses: seq<Pose>, least: int, n: nat, j: nat)
    requires n < |poses| && !poses[n].empty && j <= n
    ensures InLongRun(poses, n + 1, least, j) <==> j < n && InLongRun(poses, n, least, j)
  {
    hide PositionsOf;
    if InLongRun(poses, n + 1, least, j) {
      var c: nat, d: nat :| LongRun(poses, n + 1, least, j, c, d);
      assert LongRun(poses, n, least, j, c, d);
    }
    if j < n && InLongRun(poses, n, least, j) {
      var c: nat, d: nat :| LongRun(poses, n, least, j, c, d);
      assert LongRun(poses, n + 1, least, j, c, d);
    }
  }

  /** What the scan has rejected after one more pose. */
  lemma ScanStep(poses: seq<Pose>, least: int, a: nat, n: nat, id: (nat, int))
    requires n < |poses|
    requires if poses[n].empty then a <= n && RunUpTo(poses, a, n + 1) else a == n + 1
    ensures Rejected(poses, n + 1, least, id) <==>
            || Rejected(poses, n, least, id)
            || (poses[n].empty && |PositionsOf(poses[a..n + 1])| >= least && id in Identities(poses[a..n + 1]))
  {
    hide RunUpTo, InLongRun, PositionsOf, Identities;
    IdentitiesOfSlice(poses, a, n + 1, id);
    if Rejected(poses, n + 1, least, id) {
      var j: nat :| j < n + 1 && (poses[j].key.source, poses[j].key.plan) == id && InLongRun(poses, n + 1, least, j);
      OneMore(poses, least, a, n, j);
    }
    if Rejected(poses, n, least, id) {
      var j: nat :| j < n && (poses[j].key.source, poses[j].key.plan) == id && InLongRun(poses, n, least, j);
      OneMore(poses, least, a, n, j);
    }
    if poses[n].empty && |PositionsOf(poses[a..n + 1])| >= least && id in Identities(poses[a..n + 1]) {
      var j: nat :| a <= j < n + 1 && (poses[j].key.source, poses[j].key.plan) == id;
      OneMore(poses, least, a, n, j);
    }
  }

  lemma OneMore(poses: seq<Pose>, least: int, a: nat, n: nat, j: nat)
    requires n < |poses| && j <= n
    requires if poses[n].empty then a <= n && RunUpTo(poses, a, n + 1) else a == n + 1
    ensures InLongRun(poses, n + 1, least, j) <==>
            || (j < n && InLongRun(poses, n, least, j))
            || (poses[n].empty && a <= j && |PositionsOf(poses[a..n + 1])| >= least)
  {
    hide RunUpTo, InLongRun, PositionsOf;
    if poses[n].empty {
      RunContinues(poses, least, a, n, j);
    } else {
      RunBreaks(poses, least, n, j);
    }
  }

  lemma IdentitiesOfSlice(poses: seq<Pose>, a: nat, b: nat, id: (nat, int))
    requires a <= b <= |poses|
    ensures id in Identities(poses[a..b]) <==>
            exists j: nat :: a <= j < b && (poses[j].key.source, poses[j].key.plan) == id
  {
    var run := poses[a..b];
    if id in Identities(run) {
      var x :| x in run && (x.key.source, x.key.plan) == id;
      var k: nat :| k < |run| && run[k] == x;
      assert poses[a + k] == x;
    }
    if j: nat :| a <= j < b && (poses[j].key.source, poses[j].key.plan) == id {
      assert run[j - a] == poses[j];
    }
  }

  /** The run that ends at n + 1, from the one that ends at n and the last pose's session. */
  lemma NextRun(poses: seq<Pose>, a: nat, n: nat)
    requires n < |poses| && RunUpTo(poses, a, n) && poses[n].empty
    ensures RunUpTo(poses, if n > 0 && SameSession(poses[n - 1], poses[n]) then a else n, n + 1)
  {
  }

  lemma BrokenRun(poses: seq<Pose>, n: nat)
    requires n < |poses| && !poses[n].empty
    ensures RunUpTo(poses, n + 1, n + 1)
  {
  }

  /** The set holds exactly what the first n poses make the scan reject. */
  ghost predicate Collects(poses: seq<Pose>, n: nat, least: int, rejected: set<(nat, int)>)
    requires n <= |poses|
  {
    forall id :: id in rejected <==> Rejected(poses, n, least, id)
  }

  lemma CollectsOneMore(poses: seq<Pose>, least: int, a: nat, n: nat, before: set<(nat, int)>, after: set<(nat, int)>)
    requires n < |poses| && a <= n + 1 && Collects(poses, n, least, before)
    requires if poses[n].empty then a <= n && RunUpTo(poses, a, n + 1) else a == n + 1
    requires after == if poses[n].empty && |PositionsOf(poses[a..n + 1])| >= least
                      then before + Identities(poses[a..n + 1]) else before
    ensures Collects(poses, n + 1, least, after)
  {
    hide RunUpTo, Rejected, PositionsOf, Identities;
    forall id
      ensures id in after <==> Rejected(poses, n + 1, least, id)
    {
      ScanStep(poses, least, a, n, id);
    }
  }

  /** What holds between two poses of the scan: the run that ends there, its session, and the rejects. */
  ghost predicate Scanned(
    poses: seq<Pose>, least: int, n: nat, a: nat, run: seq<Pose>, last: Option<(nat, nat)>, rejected: set<(nat, int)>)
    requires n <= |poses|
  {
    && RunUpTo(poses, a, n) && a <= n && run == poses[a..n]
    && last == (if n == 0 then None else Some((poses[n - 1].key.source, poses[n - 1].key.session)))
    && Collects(poses, n, least, rejected)
  }

  /** One pose of the scan. */
  method ScanPose(
    poses: seq<Pose>, least: int, n: nat, run: seq<Pose>, last: Option<(nat, nat)>, rejected: set<(nat, int)>, ghost a: nat)
    returns (run': seq<Pose>, last': Option<(nat, nat)>, rejected': set<(nat, int)>, ghost a': nat)
    requires n < |poses| && Scanned(poses, least, n, a, run, last, rejected)
    ensures Scanned(poses, least, n + 1, a', run', last', rejected')
  {
    hide RunUpTo, PositionsOf, Identities, Collects;
    var pose := poses[n];
    var session := (pose.key.source, pose.key.session);
    run', last', rejected', a' := run, last, rejected, a;
    if last != Some(session) {
      run', last' := [], Some(session);
      a' := n;
    }
    if pose.empty {
      NextRun(poses, a, n);
      run' := run' + [pose];
      assert run' == poses[a'..n + 1];
      if |PositionsOf(run')| >= least {
        rejected' := rejected + Identities(run');
      }
    } else {
      BrokenRun(poses, n);
      run' := [];
      a' := n + 1;
    }
    CollectsOneMore(poses, least, a', n, rejected, rejected');
  }

  /** The scan over the sorted poses. */
  method Scan(poses: seq<Pose>, least: int) returns (rejected: set<(nat, int)>)
    ensures forall id :: id in rejected <==> Rejected(poses, |poses|, least, id)
  {
    rejected := {};
    var run: seq<Pose> := [];
    var last: Option<(nat, nat)> := None;
    ghost var a := 0;
    NothingRejected(poses, least);
    assert Scanned(poses, least, 0, a, run, last, rejected);
    for i := 0 to |poses|
      invariant Scanned(poses, least, i, a, run, last, rejected)
    {
      hide *;
      run, last, rejected, a := ScanPose(poses, least, i, run, last, rejected, a);
    }
    CollectsAll(poses, least, rejected);
  }

  lemma CollectsAll(poses: seq<Pose>, least: int, rejected: set<(nat, int)>)
    requires Collects(poses, |poses|, least, rejected)
    ensures forall id :: id in rejected <==> Rejected(poses, |poses|, least, id)
  {
  }

  lemma NothingRejected(poses: seq<Pose>, least: int)
    ensures RunUpTo(poses, 0, 0)
    ensures forall id :: !Rejected(poses, 0, least, id)
  {
  }

  // ---------------------------------------------------------------- grouping and sorting the rows

  function RowsOf(rows: seq<Row>, key: Key): seq<Row> {
    Filter(rows, (r: Row) => KeyOf(r) == key)
  }

  /** The keys in the order of their first rows. */
  function Keys(rows: seq<Row>): seq<Key> {
    if rows == [] then []
    else
      var n := |rows| - 1;
      var before := Keys(rows[..n]);
      if KeyOf(rows[n]) in before then before else before + [KeyOf(rows[n])]
  }

  function InFrame(group: seq<Row>): seq<Row> { Filter(group, (r: Row) => r.inFrame) }

  function Visible(group: seq<Row>): seq<Row> { Filter(group, (r: Row) => r.visible) }

  function PoseOf(key: Key, group: seq<Row>, minInFrame: int): Pose
    requires group != []
  {
    Pose(key, group[0].position, |InFrame(group)| >= minInFrame && |Visible(group)| == 0)
  }

  lemma {:induction false} KeysMembers(rows: seq<Row>, key: Key)
    ensures key in Keys(rows) <==> RowsOf(rows, key) != []
  {
    if rows != [] {
      KeysMembers(rows[..|rows| - 1], key);
    }
  }

  lemma {:induction false} KeysDistinct(rows: seq<Row>)
    ensures Distinct(Keys(rows))
  {
    if rows != [] {
      KeysDistinct(rows[..|rows| - 1]);
    }
  }

  function Poses(rows: seq<Row>, minInFrame: int): (poses: seq<Pose>)
    ensures |poses| == |Keys(rows)|
  {
    var keys := Keys(rows);
    assert forall i :: 0 <= i < |keys| ==> RowsOf(rows, keys[i]) != [] by {
      forall i | 0 <= i < |keys|
        ensures RowsOf(rows, keys[i]) != []
      {
        KeysMembers(rows, keys[i]);
      }
    }
    seq(|keys|, i requires 0 <= i < |keys| => PoseOf(keys[i], RowsOf(rows, keys[i]), minInFrame))
  }

  predicate PoseLe(x: Pose, y: Pose) {
    || x.key.source < y.key.source
    || (x.key.source == y.key.source &&
        (x.key.session < y.key.session || (x.key.session == y.key.session && x.key.pose <= y.key.pose)))
  }

  function SortedPoses(rows: seq<Row>, minInFrame: int): seq<Pose> {
    Sorted(Poses(rows, minInFrame), PoseLe)
  }

  method Group(rows: seq<Row>) returns (keys: seq<Key>, groups: map<Key, seq<Row>>)
    ensures keys == Keys(rows)
    ensures forall k :: (k in groups <==> k in keys) && (k in groups ==> groups[k] == RowsOf(rows, k))
  {
    keys, groups := [], map[];
    for i := 0 to |rows|
      invariant keys == Keys(rows[..i])
      invariant forall k :: (k in groups <==> k in keys) && (k in groups ==> groups[k] == RowsOf(rows[..i], k))
    {
      var k := KeyOf(rows[i]);
      assert rows[..i + 1][..i] == rows[..i];
      KeysMembers(rows[..i], k);
      if k in groups {
        groups := groups[k := groups[k] + [rows[i]]];
      } else {
        keys, groups := keys + [k], groups[k := [rows[i]]];
      }
    }
    assert rows[..|rows|] == rows;
  }

  /** The (source, plan index) pairs of the poses captured while the robot was absent. */
  method PresenceRejects(rows: seq<Row>, runPositions: int, minInFrame: int) returns (rejected: set<(nat, int)>)
    ensures var poses := SortedPoses(rows, minInFrame);
            forall id :: id in rejected <==> Rejected(poses, |poses|, runPositions, id)
  {
    hide PoseOf, Rejected, PoseLe;
    var keys, groups := Group(rows);
    var poses: seq<Pose> := [];
    for i := 0 to |keys|
      invariant poses == Poses(rows, minInFrame)[..i]
    {
      KeysMembers(rows, keys[i]);
      poses := poses + [PoseOf(keys[i], groups[keys[i]], minInFrame)];
    }
    assert poses == Poses(rows, minInFrame);
    rejected := Scan(Sorted(poses, PoseLe), runPositions);
  }

  // ---------------------------------------------------------------- what the poses say of the rows

  ghost predicate OfPose(r: Row, source: nat, session: nat, pose: int, plan: int) {
    r.source == source && r.session == session && r.pose == pose && r.plan == plan
  }

  /** The rows of one pose in which the robot was in frame. */
  ghost function InFramePlaces(rows: seq<Row>, key: Key): set<int> {
    set k | 0 <= k < |rows| && OfPose(rows[k], key.source, key.session, key.pose, key.plan) && rows[k].inFrame
  }

  lemma InFrameCount(rows: seq<Row>, key: Key)
    ensures |InFrame(RowsOf(rows, key))| == |InFramePlaces(rows, key)|
  {
    var framed := (r: Row) => KeyOf(r) == key && r.inFrame;
    FilterTwice(rows, (r: Row) => KeyOf(r) == key, (r: Row) => r.inFrame, framed);
    FilterCount(rows, framed);
    assert Places(rows, framed) == InFramePlaces(rows, key);
  }

  lemma NoneVisible(rows: seq<Row>, key: Key)
    ensures |Visible(RowsOf(rows, key))| == 0 <==>
              forall r :: r in rows && OfPose(r, key.source, key.session, key.pose, key.plan) ==> !r.visible
  {
    var seen := (r: Row) => KeyOf(r) == key && r.visible;
    FilterTwice(rows, (r: Row) => KeyOf(r) == key, (r: Row) => r.visible, seen);
    assert Visible(RowsOf(rows, key)) == Filter(rows, seen);
    forall r
      ensures r in Visible(RowsOf(rows, key)) <==>
                r in rows && OfPose(r, key.source, key.session, key.pose, key.plan) && r.visible
    {
      FilterMembers(rows, seen, r);
    }
    if Visible(RowsOf(rows, key)) != [] {
      assert Visible(RowsOf(rows, key))[0] in Visible(RowsOf(rows, key));
    }
  }

  lemma EmptyMeans(rows: seq<Row>, key: Key, minInFrame: int)
    requires RowsOf(rows, key) != []
    ensures PoseOf(key, RowsOf(rows, key), minInFrame).empty <==>
              && |InFramePlaces(rows, key)| >= minInFrame
              && forall r :: r in rows && OfPose(r, key.source, key.session, key.pose, key.plan) ==> !r.visible
  {
    InFrameCount(rows, key);
    NoneVisible(rows, key);
    hide InFrame, Visible, InFramePlaces, RowsOf, OfPose;
  }

  /** Each pose stands where its first row stood, and is empty if enough rows had the robot in frame and none saw it. */
  lemma PoseOfRows(rows: seq<Row>, minInFrame: int, i: nat)
    requires i < |SortedPoses(rows, minInFrame)|
    ensures var x := SortedPoses(rows, minInFrame)[i];
            && (x.empty <==>
                  && |InFramePlaces(rows, x.key)| >= minInFrame
                  && forall r :: r in rows && OfPose(r, x.key.source, x.key.session, x.key.pose, x.key.plan) ==> !r.visible)
            && exists k :: 0 <= k < |rows| && rows[k].position == x.position
                 && OfPose(rows[k], x.key.source, x.key.session, x.key.pose, x.key.plan)
                 && forall j :: 0 <= j < k ==> !OfPose(rows[j], x.key.source, x.key.session, x.key.pose, x.key.plan)
  {
    var x := SortedPoses(rows, minInFrame)[i];
    SortedMembers(Poses(rows, minInFrame), PoseLe);
    PosesMembers(rows, minInFrame, x);
    EmptyMeans(rows, x.key, minInFrame);
    var k := FilterFirst(rows, (r: Row) => KeyOf(r) == x.key);
    hide SortedPoses, RowsOf;
    assert forall j :: 0 <= j < k ==> KeyOf(rows[j]) != x.key;
  }

  /** Every row belongs to a pose, and the poses come by source, session and pose number. */
  lemma PosesInOrder(rows: seq<Row>, minInFrame: int)
    ensures forall r :: r in rows ==>
              exists i :: 0 <= i < |SortedPoses(rows, minInFrame)| && SortedPoses(rows, minInFrame)[i].key == KeyOf(r)
    ensures forall i, j :: 0 <= i < j < |SortedPoses(rows, minInFrame)| ==>
              var x, y := SortedPoses(rows, minInFrame)[i].key, SortedPoses(rows, minInFrame)[j].key;
              || x.source < y.source
              || (x.source == y.source && (x.session < y.session || (x.session == y.session && x.pose <= y.pose)))
  {
    var poses, sorted := Poses(rows, minInFrame), SortedPoses(rows, minInFrame);
    SortedSorts(poses, PoseLe);
    forall r | r in rows
      ensures exists i :: 0 <= i < |sorted| && sorted[i].key == KeyOf(r)
    {
      FilterMembers(rows, (q: Row) => KeyOf(q) == KeyOf(r), r);
      var x := PoseOf(KeyOf(r), RowsOf(rows, KeyOf(r)), minInFrame);
      PosesMembers(rows, minInFrame, x);
      SortedMembers(poses, PoseLe);
      assert x in sorted;
    }
  }

  /** What makes a pose rejected, place by place: an unbroken run of one session at enough different positions. */
  lemma LongRunMeans(poses: seq<Pose>, n: nat, least: int, j: nat)
    requires n <= |poses|
    ensures InLongRun(poses, n, least, j) <==>
              exists a: nat, b: nat :: a <= j < b <= n && UnbrokenRun(poses, a, b) && |PositionsBetween(poses, a, b)| >= least
  {
    hide EmptyRun, UnbrokenRun, PositionsOf, PositionsBetween;
    forall a: nat, b: nat | a < b <= n
      ensures EmptyRun(poses, a, b) <==> UnbrokenRun(poses, a, b)
      ensures PositionsOf(poses[a..b]) == PositionsBetween(poses, a, b)
    {
      RunsAgree(poses, a, b);
    }
    if InLongRun(poses, n, least, j) {
      var a: nat, b: nat :| LongRun(poses, n, least, j, a, b);
      assert a <= j < b <= n && UnbrokenRun(poses, a, b) && |PositionsBetween(poses, a, b)| >= least;
    }
    if a: nat, b: nat :| a <= j < b <= n && UnbrokenRun(poses, a, b) && |PositionsBetween(poses, a, b)| >= least {
      assert LongRun(poses, n, least, j, a, b);
    }
  }

  /** Empty poses only, all of one source and session. */
  ghost predicate UnbrokenRun(poses: seq<Pose>, a: nat, b: nat)
    requires a <= b <= |poses|
  {
    forall k :: a <= k < b ==>
      poses[k].empty && poses[k].key.source == poses[a].key.source && poses[k].key.session == poses[a].key.session
  }

  ghost function PositionsBetween(poses: seq<Pose>, a: nat, b: nat): set<string>
    requires a <= b <= |poses|
  {
    set k | a <= k < b :: poses[k].position
  }

  lemma RunsAgree(poses: seq<Pose>, a: nat, b: nat)
    requires a < b <= |poses|
    ensures EmptyRun(poses, a, b) <==> UnbrokenRun(poses, a, b)
    ensures PositionsOf(poses[a..b]) == PositionsBetween(poses, a, b)
  {
    forall x
      ensures x in PositionsOf(poses[a..b]) <==> x in PositionsBetween(poses, a, b)
    {
      if x in PositionsBetween(poses, a, b) {
        var k :| a <= k < b && poses[k].position == x;
        assert poses[a..b][k - a] == poses[k];
      }
    }
  }

  // ---------------------------------------------------------------- the order of the rows

  predicate SamePlace(r: Row, q: Row) { r.source == q.source && r.session == q.session && r.pose == q.pose }

  /** Source, session and pose number fix the plan index and the position. */
  ghost predicate PosesAreConsistent(rows: seq<Row>) {
    forall r, q :: r in rows && q in rows && SamePlace(r, q) ==> r.plan == q.plan && r.position == q.position
  }

  lemma PosesMembers(rows: seq<Row>, minInFrame: int, x: Pose)
    ensures x in Poses(rows, minInFrame) <==>
            RowsOf(rows, x.key) != [] && x == PoseOf(x.key, RowsOf(rows, x.key), minInFrame)
  {
    KeysMembers(rows, x.key);
    var keys, poses := Keys(rows), Poses(rows, minInFrame);
    hide PoseOf, RowsOf;
    if x in poses {
      var i: nat :| i < |poses| && poses[i] == x;
      KeysMembers(rows, keys[i]);
      PoseKey(keys[i], RowsOf(rows, keys[i]), minInFrame);
    }
    if x.key in keys {
      var i: nat :| i < |keys| && keys[i] == x.key;
      assert poses[i] == PoseOf(x.key, RowsOf(rows, x.key), minInFrame);
    }
  }

  lemma PoseKey(key: Key, group: seq<Row>, minInFrame: int)
    requires group != []
    ensures PoseOf(key, group, minInFrame).key == key
  {
  }

  lemma GroupsAgree(a: seq<Row>, b: seq<Row>, key: Key, minInFrame: int)
    requires multiset(a) == multiset(b) && PosesAreConsistent(a) && RowsOf(a, key) != []
    ensures RowsOf(b, key) != []
    ensures PoseOf(key, RowsOf(a, key), minInFrame) == PoseOf(key, RowsOf(b, key), minInFrame)
  {
    var mine := (r: Row) => KeyOf(r) == key;
    var ga, gb := RowsOf(a, key), RowsOf(b, key);
    FilterIgnoresOrder(a, b, mine);
    assert multiset(ga) == multiset(gb) && |ga| == |gb|;
    FilterIgnoresOrder(ga, gb, (r: Row) => r.inFrame);
    FilterIgnoresOrder(ga, gb, (r: Row) => r.visible);
    FilterMembers(a, mine, ga[0]);
    FilterMembers(b, mine, gb[0]);
    SameMembers(a, b, gb[0]);
    assert SamePlace(ga[0], gb[0]);
  }

  /** Consistent rows leave the sort no ties. */
  lemma SortedWithoutTies(rows: seq<Row>, minInFrame: int)
    requires PosesAreConsistent(rows)
    ensures StrictlySorted(SortedPoses(rows, minInFrame), PoseLe)
  {
    var poses, sorted := Poses(rows, minInFrame), SortedPoses(rows, minInFrame);
    SortedSorts(poses, PoseLe);
    SortedKeepsElements(poses, PoseLe);
    PosesDistinct(rows, minInFrame);
    DistinctIgnoresOrder(poses, sorted);
    forall i, j | 0 <= i < j < |sorted|
      ensures PoseLe(sorted[i], sorted[j]) && !PoseLe(sorted[j], sorted[i])
    {
      if PoseLe(sorted[j], sorted[i]) {
        SameMembers(sorted, poses, sorted[i]);
        SameMembers(sorted, poses, sorted[j]);
        NoTies(rows, minInFrame, sorted[i], sorted[j]);
      }
    }
  }

  lemma PosesDistinct(rows: seq<Row>, minInFrame: int)
    ensures Distinct(Poses(rows, minInFrame))
  {
    KeysDistinct(rows);
    var keys, poses := Keys(rows), Poses(rows, minInFrame);
    forall i, j | 0 <= i < j < |poses|
      ensures poses[i] != poses[j]
    {
      assert poses[i].key == keys[i] && poses[j].key == keys[j];
    }
  }

  lemma NoTies(rows: seq<Row>, minInFrame: int, x: Pose, y: Pose)
    requires PosesAreConsistent(rows) && x in Poses(rows, minInFrame) && y in Poses(rows, minInFrame)
    requires PoseLe(x, y) && PoseLe(y, x)
    ensures x == y
  {
    PosesMembers(rows, minInFrame, x);
    PosesMembers(rows, minInFrame, y);
    var p, q := RowsOf(rows, x.key)[0], RowsOf(rows, y.key)[0];
    FilterMembers(rows, (r: Row) => KeyOf(r) == x.key, p);
    FilterMembers(rows, (r: Row) => KeyOf(r) == y.key, q);
    assert SamePlace(p, q);
    assert x.key == y.key;
  }

  /** With consistent rows the poses, and so the rejects, do not depend on the order of the rows. */
  lemma OrderOfRowsDoesNotMatter(a: seq<Row>, b: seq<Row>, minInFrame: int)
    requires multiset(a) == multiset(b) && PosesAreConsistent(a)
    ensures SortedPoses(a, minInFrame) == SortedPoses(b, minInFrame)
  {
    assert PosesAreConsistent(b) by {
      forall r, q | r in b && q in b && SamePlace(r, q)
        ensures r.plan == q.plan && r.position == q.position
      {
        SameMembers(a, b, r);
        SameMembers(a, b, q);
      }
    }
    SortedWithoutTies(a, minInFrame);
    SortedWithoutTies(b, minInFrame);
    forall x
      ensures x in SortedPoses(a, minInFrame) <==> x in SortedPoses(b, minInFrame)
    {
      SortedMembers(Poses(a, minInFrame), PoseLe);
      SortedMembers(Poses(b, minInFrame), PoseLe);
      PosesMembers(a, minInFrame, x);
      PosesMembers(b, minInFrame, x);
      if RowsOf(a, x.key) != [] {
        GroupsAgree(a, b, x.key, minInFrame);
      } else if RowsOf(b, x.key) != [] {
        GroupsAgree(b, a, x.key, minInFrame);
      }
    }
    StrictlySortedIsUnique(SortedPoses(a, minInFrame), SortedPoses(b, minInFrame), PoseLe);
  }

  // ---------------------------------------------------------------- where the rows come from

  /** An entry of a pose file. */
  datatype PlanPose = PlanPose(x: real, y: real, position: string, yaw: int, v5Plan: int)

  /** How a source numbers its poses: by its place in the v5 plan, by an offset, or by the plan pose it repairs. */
  datatype Numbering = ByV5Plan | ByOffset(offset: int) | ByRepairedPose

  /** A capture pass with the pose file it was launched with. */
  datatype Source = Source(name: nat, numbering: Numbering, poses: seq<PlanPose>)

  /** What a row of a capture index itself says; x and y are where it says the robot stood. */
  datatype IndexRow = IndexRow(session: nat, pose: int, x: real, y: real, inFrame: bool, visible: bool)

  const POSE_TOLERANCE := 0.000001

  /** Whether the row has the robot where the pose file has it, within the tolerance on each axis. */
  predicate Agrees(raw: IndexRow, p: PlanPose) {
    && -POSE_TOLERANCE <= raw.x - p.x <= POSE_TOLERANCE
    && -POSE_TOLERANCE <= raw.y - p.y <= POSE_TOLERANCE
  }

  /** List indexing with negative indices counted from the end; None outside the list. */
  function PoseAt(poses: seq<PlanPose>, i: int): Option<PlanPose> {
    if 0 <= i < |poses| then Some(poses[i])
    else if -|poses| <= i < 0 then Some(poses[|poses| + i])
    else None
  }

  /** The last place of the position and heading in the v5 plan. */
  function PlaceInPlan(plan: seq<PlanPose>, p: PlanPose): Option<int> {
    if plan == [] then None
    else
      var n := |plan| - 1;
      if plan[n].position == p.position && plan[n].yaw == p.yaw then Some(n) else PlaceInPlan(plan[..n], p)
  }

  function PlanIndex(source: Source, plan: seq<PlanPose>, p: PlanPose, i: int): Option<int> {
    match source.numbering
    case ByV5Plan => PlaceInPlan(plan, p)
    case ByOffset(offset) => Some(offset + i)
    case ByRepairedPose => Some(p.v5Plan)
  }

  /** One index row keyed onto the plan; None where the loader raises an error. */
  function LoadRow(source: Source, plan: seq<PlanPose>, raw: IndexRow): Option<Row> {
    match PoseAt(source.poses, raw.pose)
    case None => None
    case Some(p) =>
      if !Agrees(raw, p) then None
      else
        match PlanIndex(source, plan, p, raw.pose)
        case None => None
        case Some(index) => Some(Row(source.name, raw.session, raw.pose, index, p.position, raw.inFrame, raw.visible))
  }

  ghost predicate SamePositionAndYaw(p: PlanPose, q: PlanPose) { p.position == q.position && p.yaw == q.yaw }

  lemma {:induction false} PlaceIsLast(plan: seq<PlanPose>, p: PlanPose)
    ensures PlaceInPlan(plan, p).None? <==> forall k :: 0 <= k < |plan| ==> !SamePositionAndYaw(plan[k], p)
    ensures PlaceInPlan(plan, p).Some? ==>
              var i := PlaceInPlan(plan, p).value;
              && 0 <= i < |plan| && SamePositionAndYaw(plan[i], p)
              && forall k :: i < k < |plan| ==> !SamePositionAndYaw(plan[k], p)
  {
    if plan != [] {
      PlaceIsLast(plan[..|plan| - 1], p);
    }
  }

  /** When a row loads: its pose number lies in its file, it stands where the file says, and the pose is in the plan. */
  lemma LoadRowChecks(source: Source, plan: seq<PlanPose>, raw: IndexRow)
    ensures LoadRow(source, plan, raw).Some? <==>
              && -|source.poses| <= raw.pose < |source.poses|
              && var p := source.poses[if raw.pose < 0 then raw.pose + |source.poses| else raw.pose];
                 && -0.000001 <= raw.x - p.x <= 0.000001 && -0.000001 <= raw.y - p.y <= 0.000001
                 && (source.numbering.ByV5Plan? ==> exists k :: 0 <= k < |plan| && SamePositionAndYaw(plan[k], p))
    ensures LoadRow(source, plan, raw).Some? ==>
              var r := LoadRow(source, plan, raw).value;
              var p := source.poses[if raw.pose < 0 then raw.pose + |source.poses| else raw.pose];
              && r.source == source.name && r.session == raw.session && r.pose == raw.pose && r.position == p.position
              && r.inFrame == raw.inFrame && r.visible == raw.visible
              && match source.numbering
                 case ByOffset(offset) => r.plan == offset + raw.pose
                 case ByRepairedPose => r.plan == p.v5Plan
                 case ByV5Plan =>
                   && 0 <= r.plan < |plan| && SamePositionAndYaw(plan[r.plan], p)
                   && forall k :: r.plan < k < |plan| ==> !SamePositionAndYaw(plan[k], p)
  {
    if -|source.poses| <= raw.pose < |source.poses| {
      PlaceIsLast(plan, source.poses[if raw.pose < 0 then raw.pose + |source.poses| else raw.pose]);
    }
  }

  /** The row was loaded from the source's own pose file. */
  ghost predicate LoadedFrom(source: Source, plan: seq<PlanPose>, r: Row) {
    exists raw :: LoadRow(source, plan, raw) == Some(r)
  }

  ghost predicate Loaded(sources: seq<Source>, plan: seq<PlanPose>, r: Row) {
    exists i :: 0 <= i < |sources| && LoadedFrom(sources[i], plan, r)
  }

  ghost predicate DistinctNames(sources: seq<Source>) {
    forall i, j :: 0 <= i < j < |sources| ==> sources[i].name != sources[j].name
  }

  ghost predicate AllLoad(source: Source, plan: seq<PlanPose>, raws: seq<IndexRow>) {
    forall k :: 0 <= k < |raws| ==> LoadRow(source, plan, raws[k]).Some?
  }

  /** The rows of one pass that are kept, in file order. */
  function Taken(source: Source, plan: seq<PlanPose>, raws: seq<IndexRow>, kept: Row -> bool): seq<Row> {
    if raws == [] then []
    else
      var n := |raws| - 1;
      var r := LoadRow(source, plan, raws[n]);
      Taken(source, plan, raws[..n], kept) + if r.Some? && kept(r.value) then [r.value] else []
  }

  function AllTaken(sources: seq<Source>, plan: seq<PlanPose>, raws: seq<seq<IndexRow>>, kept: Row -> bool): seq<Row>
    requires |raws| == |sources|
  {
    if sources == [] then []
    else
      var n := |sources| - 1;
      AllTaken(sources[..n], plan, raws[..n], kept) + Taken(sources[n], plan, raws[n], kept)
  }

  method LoadPass(source: Source, plan: seq<PlanPose>, raws: seq<IndexRow>, kept: Row -> bool)
    returns (rows: Option<seq<Row>>)
    ensures rows == if AllLoad(source, plan, raws) then Some(Taken(source, plan, raws, kept)) else None
  {
    hide LoadRow;
    var taken: seq<Row> := [];
    for k := 0 to |raws|
      invariant AllLoad(source, plan, raws[..k]) && taken == Taken(source, plan, raws[..k], kept)
    {
      assert raws[..k + 1][..k] == raws[..k];
      var r := LoadRow(source, plan, raws[k]);
      if r.None? {
        return None;
      }
      if kept(r.value) {
        taken := taken + [r.value];
      }
    }
    assert raws[..|raws|] == raws;
    rows := Some(taken);
  }

  /** All passes one after the other; `kept` are the filters a row has to get past. */
  method LoadRows(sources: seq<Source>, plan: seq<PlanPose>, raws: seq<seq<IndexRow>>, kept: Row -> bool)
    returns (rows: Option<seq<Row>>)
    requires |raws| == |sources|
    ensures rows.Some? <==> forall i :: 0 <= i < |sources| ==> AllLoad(sources[i], plan, raws[i])
    ensures rows.Some? ==> rows.value == AllTaken(sources, plan, raws, kept)
  {
    hide AllLoad, Taken;
    var taken: seq<Row> := [];
    for i := 0 to |sources|
      invariant forall k :: 0 <= k < i ==> AllLoad(sources[k], plan, raws[k])
      invariant taken == AllTaken(sources[..i], plan, raws[..i], kept)
    {
      assert sources[..i + 1][..i] == sources[..i] && raws[..i + 1][..i] == raws[..i];
      var more := LoadPass(sources[i], plan, raws[i], kept);
      if more.None? {
        return None;
      }
      taken := taken + more.value;
    }
    assert sources[..|sources|] == sources && raws[..|raws|] == raws;
    rows := Some(taken);
  }

  lemma {:induction false} TakenIsLoaded(source: Source, plan: seq<PlanPose>, raws: seq<IndexRow>, kept: Row -> bool, r: Row)
    requires r in Taken(source, plan, raws, kept)
    ensures LoadedFrom(source, plan, r)
  {
    var n := |raws| - 1;
    if r in Taken(source, plan, raws[..n], kept) {
      TakenIsLoaded(source, plan, raws[..n], kept, r);
    } else {
      assert LoadRow(source, plan, raws[n]) == Some(r);
    }
  }

  lemma {:induction false} AllTakenIsLoaded(
    sources: seq<Source>, plan: seq<PlanPose>, raws: seq<seq<IndexRow>>, kept: Row -> bool, r: Row)
    requires |raws| == |sources| && r in AllTaken(sources, plan, raws, kept)
    ensures Loaded(sources, plan, r)
  {
    hide Taken, LoadedFrom;
    var n := |sources| - 1;
    if r in AllTaken(sources[..n], plan, raws[..n], kept) {
      AllTakenIsLoaded(sources[..n], plan, raws[..n], kept, r);
      var i :| 0 <= i < n && LoadedFrom(sources[..n][i], plan, r);
      assert LoadedFrom(sources[i], plan, r);
    } else {
      TakenIsLoaded(sources[n], plan, raws[n], kept, r);
    }
  }

  /** Rows loaded from pose files agree on plan index and position wherever they share source and pose number. */
  lemma LoadedRowsAreConsistent(
    sources: seq<Source>, plan: seq<PlanPose>, raws: seq<seq<IndexRow>>, kept: Row -> bool)
    requires |raws| == |sources| && DistinctNames(sources)
    ensures PosesAreConsistent(AllTaken(sources, plan, raws, kept))
  {
    var rows := AllTaken(sources, plan, raws, kept);
    hide AllTaken;
    forall r, q | r in rows && q in rows && SamePlace(r, q)
      ensures r.plan == q.plan && r.position == q.position
    {
      AllTakenIsLoaded(sources, plan, raws, kept, r);
      AllTakenIsLoaded(sources, plan, raws, kept, q);
      var i :| 0 <= i < |sources| && LoadedFrom(sources[i], plan, r);
      var j :| 0 <= j < |sources| && LoadedFrom(sources[j], plan, q);
      assert sources[i].name == r.source && sources[j].name == q.source;
      assert i == j;
    }
  }

  /** So for the rows of the data set, in whatever order they come, the same poses are rejected. */
  lemma DatasetOrderDoesNotMatter(
    sources: seq<Source>, plan: seq<PlanPose>, raws: seq<seq<IndexRow>>, kept: Row -> bool, other: seq<Row>,
    least: int, minInFrame: int, id: (nat, int))
    requires |raws| == |sources| && DistinctNames(sources)
    requires multiset(other) == multiset(AllTaken(sources, plan, raws, kept))
    ensures var a, b := SortedPoses(AllTaken(sources, plan, raws, kept), minInFrame), SortedPoses(other, minInFrame);
            Rejected(a, |a|, least, id) <==> Rejected(b, |b|, least, id)
  {
    hide AllTaken, SortedPoses;
    LoadedRowsAreConsistent(sources, plan, raws, kept);
    OrderOfRowsDoesNotMatter(AllTaken(sources, plan, raws, kept), other, minInFrame);
  }
}
