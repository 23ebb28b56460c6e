/**
 The preflight that decides whether a written index may be resumed, and from where.
 */
module CaptureAudit {
  import opened Sorting
  import opened Counting
  import opened CaptureIndex

  datatype Report = Report(ready: bool, nextBatch: int, nextPose: int)

  predicate KeyAtMost(a: Key, b: Key) {
    a.pose < b.pose || (a.pose == b.pose && a.repetition <= b.repetition)
  }

  /** The batches in the order in which the audit walks them. */
  function AuditOrder(rows: seq<Row>): seq<Key> {
    Sorted(KeyList(rows), KeyAtMost)
  }

  /** One past the largest batch index in the file. */
  function NextBatch(rows: seq<Row>, repeats: nat): int {
    if rows == [] then 0 else
      var n := |rows| - 1;
      var next := NextBatch(rows[..n], repeats);
      var i := Index(KeyOf(rows[n]), repeats) + 1;
      if n == 0 || i > next then i else next
  }

  /** Keys present are exactly those of batches 0..next-1, within the plan. */
  predicate ContiguousPrefix(keys: seq<Key>, next: int, plan: Plan)
    requires plan.Valid()
  {
    && 0 <= next <= plan.Batches()
    && (forall k :: k in keys ==> 0 <= k.repetition < plan.repeats)
    && (forall k :: k in keys ==> exists b :: 0 <= b < next && k == BatchKey(b, plan.repeats))
    && (forall b :: 0 <= b < next ==> BatchKey(b, plan.repeats) in keys)
  }

  predicate HasCamera(batch: seq<Row>, c: nat) {
    exists r :: r in batch && r.camera == c
  }

  /** Every camera once, one outcome and one commanded pose for all of them. */
  predicate CompleteBatch(batch: seq<Row>, cameras: nat) {
    && |batch| == cameras > 0
    && (forall r :: r in batch ==> r.camera < cameras)
    && (forall c :: 0 <= c < cameras ==> HasCamera(batch, c))
    && (batch[0].status.Ok? || batch[0].status.Failed?)
    && (forall r :: r in batch ==> r.status == batch[0].status && r.commanded == batch[0].commanded)
  }

  const POSE_TOLERANCE := 0.000000000001

  predicate Close(x: real, y: real) { -POSE_TOLERANCE <= x - y <= POSE_TOLERANCE }

  /** The row's pose is that of the plan, up to the tolerance. */
  predicate PoseCoherent(r: Row, plan: Plan) {
    && 0 <= r.pose < |plan.poses|
    && var p := plan.poses[r.pose];
       && Close(r.commanded.x, p.x) && Close(r.commanded.y, p.y) && Close(r.commanded.yaw, p.yaw)
       && r.commanded.positionId == p.positionId && r.commanded.headingId == p.headingId
  }

  /** Timing and identity of one successful row. */
  predicate RowIdentity(r: Row) {
    && r.session != "" && 0 < r.issue <= r.ack <= r.barrier < r.stamp
    && r.image == ImageId(r.session, r.camera, r.stamp)
  }

  /** All rows of a batch come from one session and one command. */
  predicate OneCommand(batch: seq<Row>) {
    forall r, s :: r in batch && s in batch ==>
      r.session == s.session && r.issue == s.issue && r.ack == s.ack && r.barrier == s.barrier
  }

  function MaxS(batch: seq<Row>): real
    requires |batch| > 0
  {
    if |batch| == 1 then batch[0].stampS else
      if batch[0].stampS > MaxS(batch[1..]) then batch[0].stampS else MaxS(batch[1..])
  }

  function MinS(batch: seq<Row>): real
    requires |batch| > 0
  {
    if |batch| == 1 then batch[0].stampS else
      if batch[0].stampS < MinS(batch[1..]) then batch[0].stampS else MinS(batch[1..])
  }

  /** The recorded stamps lie within the slop and every row records their span. */
  predicate BatchTiming(batch: seq<Row>, plan: Plan)
    requires |batch| > 0
  {
    var actual := MaxS(batch) - MinS(batch);
    && 0.0 <= actual <= Seconds(plan.slopNs) + NS
    && forall i :: 0 <= i < |batch| ==> -0.000001 <= batch[i].spanS - actual <= 0.000001
  }

  /** The rows of the successful batches, in audit order. */
  function OkRows(rows: seq<Row>, keys: seq<Key>): seq<Row> {
    if keys == [] then [] else
      var n := |keys| - 1;
      var batch := RowsOf(rows, keys[n]);
      OkRows(rows, keys[..n]) + (if |batch| > 0 && batch[0].status.Ok? then batch else [])
  }

  /** Per session and camera the physical stamps strictly increase: no image is used twice. */
  ghost predicate StampsIncrease(flat: seq<Row>) {
    forall i, j :: 0 <= i < j < |flat| && flat[i].session == flat[j].session && flat[i].camera == flat[j].camera ==>
      flat[i].stamp < flat[j].stamp
  }

  ghost predicate AllIdentified(flat: seq<Row>) {
    forall i :: 0 <= i < |flat| ==> RowIdentity(flat[i])
  }

  /** The audit's verdict, without its loops. */
  ghost predicate AuditOk(rows: seq<Row>, plan: Plan)
    requires plan.Valid()
  {
    && ContiguousPrefix(KeyList(rows), NextBatch(rows, plan.repeats), plan)
    && (forall k :: k in KeyList(rows) ==> CompleteBatch(RowsOf(rows, k), plan.cameras))
    && (forall r :: r in rows ==> r.batchId == BatchId(r.pose, r.repetition) && PoseCoherent(r, plan))
    && (forall k :: k in KeyList(rows) ==> OkBatchSound(RowsOf(rows, k), plan))
    && AllIdentified(OkRows(rows, AuditOrder(rows))) && StampsIncrease(OkRows(rows, AuditOrder(rows)))
  }

  /** The batch-wide checks of a successful batch; failed batches have none. */
  predicate OkBatchSound(batch: seq<Row>, plan: Plan) {
    |batch| > 0 && batch[0].status.Ok? ==> BatchTiming(batch, plan) && OneCommand(batch)
  }

  // ---------------------------------------------------------------- the loops

  /** Collects the rows of each pose and repetition, in file order. */
  method GroupRows(rows: seq<Row>) returns (batches: map<Key, seq<Row>>, order: seq<Key>)
    ensures order == KeyList(rows)
    ensures forall k :: k in batches <==> k in order
    ensures forall k :: k in batches ==> batches[k] == RowsOf(rows, k)
  {
    batches, order := map[], [];
    for i := 0 to |rows|
      invariant order == KeyList(rows[..i])
      invariant forall k :: k in batches <==> k in order
      invariant forall k :: k in batches ==> batches[k] == RowsOf(rows[..i], k)
    {
      var key := KeyOf(rows[i]);
      assert rows[..i + 1][..i] == rows[..i];
      KeyListMembers(rows[..i], key);
      if key in batches {
        batches := batches[key := batches[key] + [rows[i]]];
      } else {
        batches := batches[key := [rows[i]]];
        order := order + [key];
      }
    }
    assert rows[..|rows|] == rows;
  }

  /** A physical camera exposure: session and camera. */
  datatype Source = Source(session: string, camera: nat)

  /** `previous` holds the last stamp of every source seen so far. */
  ghost predicate LastStamps(flat: seq<Row>, previous: map<Source, int>) {
    && (forall i :: 0 <= i < |flat| ==>
          var e := Source(flat[i].session, flat[i].camera);
          e in previous && flat[i].stamp <= previous[e])
    && (forall e :: e in previous ==>
          exists i :: 0 <= i < |flat| && Source(flat[i].session, flat[i].camera) == e && flat[i].stamp == previous[e])
  }

  lemma NextRow(flat: seq<Row>, previous: map<Source, int>, r: Row)
    requires AllIdentified(flat) && StampsIncrease(flat) && LastStamps(flat, previous)
    ensures var e := Source(r.session, r.camera);
            AllIdentified(flat + [r]) && StampsIncrease(flat + [r]) <==>
              RowIdentity(r) && r.stamp > (if e in previous then previous[e] else 0)
  {
    var e := Source(r.session, r.camera);
    var more := flat + [r];
    assert more[|flat|] == r;
    if StampsIncrease(more) && e in previous {
      var i :| 0 <= i < |flat| && Source(flat[i].session, flat[i].camera) == e && flat[i].stamp == previous[e];
      assert more[i] == flat[i];
    }
  }

  lemma LastStampsExtend(flat: seq<Row>, previous: map<Source, int>, r: Row)
    requires LastStamps(flat, previous)
    requires var e := Source(r.session, r.camera); e in previous ==> previous[e] <= r.stamp
    ensures LastStamps(flat + [r], previous[Source(r.session, r.camera) := r.stamp])
  {
    var e := Source(r.session, r.camera);
    var more, previous' := flat + [r], previous[e := r.stamp];
    assert more[|flat|] == r;
    forall x | x in previous'
      ensures exists i :: 0 <= i < |more| && Source(more[i].session, more[i].camera) == x && more[i].stamp == previous'[x]
    {
      if x == e {
        assert Source(more[|flat|].session, more[|flat|].camera) == x;
      } else {
        var i :| 0 <= i < |flat| && Source(flat[i].session, flat[i].camera) == x && flat[i].stamp == previous[x];
        assert more[i] == flat[i];
      }
    }
  }

  lemma OnceBrokenStaysBroken(flat: seq<Row>, r: Row)
    requires !(AllIdentified(flat) && StampsIncrease(flat))
    ensures !(AllIdentified(flat + [r]) && StampsIncrease(flat + [r]))
  {
    var more := flat + [r];
    assert forall i :: 0 <= i < |flat| ==> more[i] == flat[i];
  }

  /** The identity checks of one successful batch, row by row. */
  method ScanBatch(batch: seq<Row>, previous: map<Source, int>, identity: bool, ghost flat: seq<Row>)
    returns (previous': map<Source, int>, identity': bool)
    requires identity <==> AllIdentified(flat) && StampsIncrease(flat)
    requires identity ==> LastStamps(flat, previous)
    ensures identity' <==> AllIdentified(flat + batch) && StampsIncrease(flat + batch)
    ensures identity' ==> LastStamps(flat + batch, previous')
  {
    hide RowIdentity, LastStamps, AllIdentified, StampsIncrease;
    previous', identity' := previous, identity;
    assert flat + batch[..0] == flat;
    for i := 0 to |batch|
      invariant identity' <==> AllIdentified(flat + batch[..i]) && StampsIncrease(flat + batch[..i])
      invariant identity' ==> LastStamps(flat + batch[..i], previous')
    {
      var r := batch[i];
      var e := Source(r.session, r.camera);
      assert flat + batch[..i + 1] == flat + batch[..i] + [r];
      if identity' {
        NextRow(flat + batch[..i], previous', r);
        if RowIdentity(r) && r.stamp > (if e in previous' then previous'[e] else 0) {
          LastStampsExtend(flat + batch[..i], previous', r);
        }
      } else {
        OnceBrokenStaysBroken(flat + batch[..i], r);
      }
      identity' := identity' && RowIdentity(r) && r.stamp > (if e in previous' then previous'[e] else 0);
      previous' := previous'[e := r.stamp];
    }
    assert batch[..|batch|] == batch;
  }

  /** The timing and identity checks over all batches, in audit order. */
  method ScanBatches(rows: seq<Row>, keys: seq<Key>, batches: map<Key, seq<Row>>, plan: Plan)
    returns (sound: bool, identity: bool)
    requires forall k :: k in keys ==> k in batches && batches[k] == RowsOf(rows, k)
    ensures sound <==> forall k :: k in keys ==> OkBatchSound(RowsOf(rows, k), plan)
    ensures identity <==> AllIdentified(OkRows(rows, keys)) && StampsIncrease(OkRows(rows, keys))
  {
    hide OkBatchSound, LastStamps;
    var previous: map<Source, int> := map[];
    sound, identity := true, true;
    NoRows();
    for i := 0 to |keys|
      invariant sound <==> forall j :: 0 <= j < i ==> OkBatchSound(RowsOf(rows, keys[j]), plan)
      invariant identity <==> AllIdentified(OkRows(rows, keys[..i])) && StampsIncrease(OkRows(rows, keys[..i]))
      invariant identity ==> LastStamps(OkRows(rows, keys[..i]), previous)
    {
      hide AllIdentified, StampsIncrease;
      var batch := batches[keys[i]];
      assert keys[..i + 1][..i] == keys[..i];
      sound := sound && OkBatchSound(batch, plan);
      if |batch| > 0 && batch[0].status.Ok? {
        previous, identity := ScanBatch(batch, previous, identity, OkRows(rows, keys[..i]));
      } else {
        assert OkRows(rows, keys[..i]) + [] == OkRows(rows, keys[..i]);
      }
    }
    assert keys[..|keys|] == keys;
  }

  lemma NoRows()
    ensures AllIdentified([]) && StampsIncrease([]) && LastStamps([], map[])
  {
  }

  /** The preflight: whether the index may be resumed, and the first batch it lacks. */
  method Audit(rows: seq<Row>, plan: Plan) returns (report: Report)
    requires plan.Valid()
    ensures report.ready <==> AuditOk(rows, plan)
    ensures report.nextBatch == NextBatch(rows, plan.repeats) && report.nextPose == report.nextBatch / plan.repeats
  {
    hide OkBatchSound, CompleteBatch, ContiguousPrefix, PoseCoherent, AllIdentified, StampsIncrease;
    hide KeyList, RowsOf, OkRows, NextBatch, Sorted, KeyAtMost;
    var batches, order := GroupRows(rows);
    var keys := Sorted(order, KeyAtMost);
    SortedMembers(order, KeyAtMost);
    var next := NextBatch(rows, plan.repeats);
    var complete := forall k :: k in order ==> CompleteBatch(batches[k], plan.cameras);
    var coherent := forall r :: r in rows ==> r.batchId == BatchId(r.pose, r.repetition) && PoseCoherent(r, plan);
    var sound, identity := ScanBatches(rows, keys, batches, plan);
    var ready := ContiguousPrefix(order, next, plan) && complete && coherent && sound && identity;
    report := Report(ready, next, next / plan.repeats);
  }

  // ---------------------------------------------------------------- what acceptance means

  function CamerasOf(batch: seq<Row>): seq<nat> {
    seq(|batch|, i requires 0 <= i < |batch| => batch[i].camera)
  }

  /** A complete batch holds exactly one row of every camera. */
  lemma CompleteBatchHasEachCameraOnce(batch: seq<Row>, cameras: nat, c: nat)
    requires CompleteBatch(batch, cameras) && c < cameras
    ensures exists i :: 0 <= i < |batch| && batch[i].camera == c
    ensures forall i, j :: 0 <= i < j < |batch| ==> batch[i].camera != batch[j].camera
  {
    var listed := CamerasOf(batch);
    BelowCount(cameras);
    forall e | e in Below(cameras)
      ensures e in ValuesOf(listed)
    {
      assert HasCamera(batch, e);
      var i :| 0 <= i < |batch| && batch[i].camera == e;
      assert listed[i] == e;
      ValuesOfMembers(listed, e);
    }
    SubsetCount(Below(cameras), ValuesOf(listed));
    ValuesOfCount(listed);
    forall i, j | 0 <= i < j < |batch|
      ensures batch[i].camera != batch[j].camera
    {
      assert listed[i] != listed[j];
    }
    assert HasCamera(batch, c);
  }

  /**
   In an accepted index, whoever wrote it and in whatever row order, every camera of every
   batch before the resume point has exactly one row, and no later batch has any.
   */
  lemma AcceptedIndexIsExact(rows: seq<Row>, plan: Plan, b: nat, c: nat)
    requires plan.Valid() && AuditOk(rows, plan) && c < plan.cameras
    ensures var batch := RowsOf(rows, BatchKey(b, plan.repeats));
            if b < NextBatch(rows, plan.repeats)
            then (exists i :: 0 <= i < |batch| && batch[i].camera == c)
              && (forall i, j :: 0 <= i < j < |batch| ==> batch[i].camera != batch[j].camera)
            else batch == []
  {
    hide CompleteBatch, OkBatchSound, AllIdentified, StampsIncrease;
    var key := BatchKey(b, plan.repeats);
    KeyListMembers(rows, key);
    if b < NextBatch(rows, plan.repeats) {
      CompleteBatchHasEachCameraOnce(RowsOf(rows, key), plan.cameras, c);
    } else if key in KeyList(rows) {
      var a :| 0 <= a < NextBatch(rows, plan.repeats) && key == BatchKey(a, plan.repeats);
      BatchKeyIndex(a, plan.repeats);
      BatchKeyIndex(b, plan.repeats);
    }
  }

  /** Two rows of one batch. */
  ghost predicate Together(r: Row, q: Row) { r.pose == q.pose && r.repetition == q.repetition }

  lemma {:induction false} StampsBetween(batch: seq<Row>, i: nat)
    requires i < |batch|
    ensures MinS(batch) <= batch[i].stampS <= MaxS(batch)
  {
    if |batch| > 1 {
      StampsBetween(batch[1..], if i > 0 then i - 1 else 0);
    }
  }

  lemma {:induction false} ExtremesAreRows(batch: seq<Row>) returns (i: nat, j: nat)
    requires |batch| > 0
    ensures i < |batch| && j < |batch| && batch[i].stampS == MaxS(batch) && batch[j].stampS == MinS(batch)
  {
    i, j := 0, 0;
    if |batch| > 1 {
      i, j := ExtremesAreRows(batch[1..]);
      i := if batch[0].stampS > MaxS(batch[1..]) then 0 else i + 1;
      j := if batch[0].stampS < MinS(batch[1..]) then 0 else j + 1;
    }
  }

  lemma BatchOfRow(rows: seq<Row>, plan: Plan, r: Row)
    requires plan.Valid() && AuditOk(rows, plan) && r in rows
    ensures KeyOf(r) in KeyList(rows) && r in RowsOf(rows, KeyOf(r))
    ensures CompleteBatch(RowsOf(rows, KeyOf(r)), plan.cameras) && OkBatchSound(RowsOf(rows, KeyOf(r)), plan)
  {
    hide CompleteBatch, OkBatchSound, AllIdentified, StampsIncrease, ContiguousPrefix, PoseCoherent;
    RowsOfMembers(rows, KeyOf(r), r);
    KeyListMembers(rows, KeyOf(r));
  }

  /** Any two rows of a batch of an accepted index tell of one outcome, one commanded pose and, if they succeeded, one command. */
  lemma AcceptedBatchAgrees(rows: seq<Row>, plan: Plan, r: Row, q: Row)
    requires plan.Valid() && AuditOk(rows, plan) && r in rows && q in rows && Together(r, q)
    ensures r.status == q.status && (r.status.Ok? || r.status.Failed?) && r.commanded == q.commanded
    ensures r.status.Ok? ==>
              && r.session == q.session && r.issue == q.issue && r.ack == q.ack && r.barrier == q.barrier
              && r.stampS - q.stampS <= plan.slopNs as real * 0.000000001 + 0.000000001
  {
    hide AuditOk;
    BatchOfRow(rows, plan, r);
    BatchOfRow(rows, plan, q);
    var batch := RowsOf(rows, KeyOf(r));
    var i: nat :| i < |batch| && batch[i] == r;
    var j: nat :| j < |batch| && batch[j] == q;
    StampsBetween(batch, i);
    StampsBetween(batch, j);
  }

  /** The span that a successful row records is, to a microsecond, that of the stamps of its batch. */
  lemma AcceptedSpanIsTrue(rows: seq<Row>, plan: Plan, r: Row) returns (first: Row, last: Row)
    requires plan.Valid() && AuditOk(rows, plan) && r in rows && r.status.Ok?
    ensures first in rows && last in rows && Together(r, first) && Together(r, last)
    ensures -0.000001 <= r.spanS - (last.stampS - first.stampS) <= 0.000001
    ensures forall q :: q in rows && Together(r, q) ==> first.stampS <= q.stampS <= last.stampS
  {
    hide AuditOk;
    BatchOfRow(rows, plan, r);
    var batch := RowsOf(rows, KeyOf(r));
    var k: nat :| k < |batch| && batch[k] == r;
    assert batch[0] in batch;
    var i, j := ExtremesAreRows(batch);
    last, first := batch[i], batch[j];
    RowsOfMembers(rows, KeyOf(r), last);
    RowsOfMembers(rows, KeyOf(r), first);
    forall q | q in rows && Together(r, q)
      ensures first.stampS <= q.stampS <= last.stampS
    {
      RowsOfMembers(rows, KeyOf(r), q);
      var m: nat :| m < |batch| && batch[m] == q;
      StampsBetween(batch, m);
    }
  }

  lemma {:induction false} OkRowsMembers(rows: seq<Row>, keys: seq<Key>, r: Row)
    requires KeyOf(r) in keys && r in RowsOf(rows, KeyOf(r)) && RowsOf(rows, KeyOf(r))[0].status.Ok?
    ensures r in OkRows(rows, keys)
  {
    var n := |keys| - 1;
    if KeyOf(r) in keys[..n] {
      OkRowsMembers(rows, keys[..n], r);
    } else {
      assert keys[n] == KeyOf(r);
    }
  }

  lemma OkRowIsWalked(rows: seq<Row>, plan: Plan, r: Row)
    requires plan.Valid() && AuditOk(rows, plan) && r in rows && r.status.Ok?
    ensures r in OkRows(rows, AuditOrder(rows))
  {
    hide AuditOk, CompleteBatch;
    BatchOfRow(rows, plan, r);
    BatchStatus(rows, plan, r);
    SortedMembers(KeyList(rows), KeyAtMost);
    OkRowsMembers(rows, AuditOrder(rows), r);
  }

  /**
   Every row of an accepted index belongs to the plan, and every successful one was
   commanded, acknowledged, settled and stamped in this order and names its own picture.
   */
  lemma AcceptedRowIsSound(rows: seq<Row>, plan: Plan, r: Row)
    requires plan.Valid() && AuditOk(rows, plan) && r in rows
    ensures 0 <= r.pose < |plan.poses| && 0 <= r.repetition < plan.repeats && r.camera < plan.cameras
    ensures r.batchId == BatchId(r.pose, r.repetition)
    ensures var p := plan.poses[r.pose];
            && -0.000000000001 <= r.commanded.x - p.x <= 0.000000000001
            && -0.000000000001 <= r.commanded.y - p.y <= 0.000000000001
            && -0.000000000001 <= r.commanded.yaw - p.yaw <= 0.000000000001
            && r.commanded.positionId == p.positionId && r.commanded.headingId == p.headingId
    ensures r.status.Ok? ==>
              && r.session != "" && 0 < r.issue <= r.ack <= r.barrier < r.stamp
              && r.image == ImageId(r.session, r.camera, r.stamp)
  {
    BatchOfRow(rows, plan, r);
    hide OkBatchSound, StampsIncrease, CompleteBatch, ContiguousPrefix, OkRows, AuditOrder, KeyList, RowsOf;
    RowCameraAndRepetition(rows, plan, r);
    if r.status.Ok? {
      OkRowIsWalked(rows, plan, r);
      var flat := OkRows(rows, AuditOrder(rows));
      var i :| 0 <= i < |flat| && flat[i] == r;
      assert RowIdentity(flat[i]);
    }
  }

  lemma RowCameraAndRepetition(rows: seq<Row>, plan: Plan, r: Row)
    requires plan.Valid() && AuditOk(rows, plan) && r in rows && KeyOf(r) in KeyList(rows)
    requires r in RowsOf(rows, KeyOf(r))
    ensures 0 <= r.repetition < plan.repeats && r.camera < plan.cameras
  {
    hide OkBatchSound, StampsIncrease, AllIdentified;
    assert CompleteBatch(RowsOf(rows, KeyOf(r)), plan.cameras);
  }

  lemma BatchStatus(rows: seq<Row>, plan: Plan, r: Row)
    requires CompleteBatch(RowsOf(rows, KeyOf(r)), plan.cameras) && r in RowsOf(rows, KeyOf(r))
    ensures RowsOf(rows, KeyOf(r))[0].status == r.status
  {
  }

  /** No two successful rows of one session and camera have one stamp: no picture is used twice. */
  lemma AcceptedPicturesDiffer(rows: seq<Row>, plan: Plan, r: Row, q: Row)
    requires plan.Valid() && AuditOk(rows, plan) && r in rows && q in rows && r.status.Ok? && q.status.Ok?
    requires r != q && r.session == q.session && r.camera == q.camera
    ensures r.stamp != q.stamp && r.image != q.image
  {
    hide AuditOk, OkRows, AuditOrder;
    AcceptedRowIsSound(rows, plan, r);
    AcceptedRowIsSound(rows, plan, q);
    OkRowIsWalked(rows, plan, r);
    OkRowIsWalked(rows, plan, q);
    WalkedStampsIncrease(rows, plan);
    var flat := OkRows(rows, AuditOrder(rows));
    var i :| 0 <= i < |flat| && flat[i] == r;
    var j :| 0 <= j < |flat| && flat[j] == q;
    assert flat[i].stamp != flat[j].stamp;
  }

  lemma WalkedStampsIncrease(rows: seq<Row>, plan: Plan)
    requires plan.Valid() && AuditOk(rows, plan)
    ensures StampsIncrease(OkRows(rows, AuditOrder(rows)))
  {
    hide OkBatchSound, CompleteBatch, AllIdentified, StampsIncrease, ContiguousPrefix, PoseCoherent, OkRows, AuditOrder, KeyList, RowsOf;
  }
}
