/**
 What the capture writer can have written, and that the audit accepts exactly that of it
 whose settle time was not negative.
 */
module CaptureLog {
  import opened Sorting
  import opened BatchChooser
  import opened CaptureIndex
  import opened CaptureAudit

  /** The batches written so far, in plan order. */
  type Log = seq<seq<Row>>

  ghost function Flatten(log: Log): seq<Row> {
    if log == [] then [] else Flatten(log[..|log| - 1]) + log[|log| - 1]
  }

  function StampPairs(batch: seq<Row>): seq<Pair> {
    seq(|batch|, c requires 0 <= c < |batch| => Pair(batch[c].stamp, 0))
  }

  /** Row c of batch b: keys, camera, command and plan entry. */
  ghost predicate RowInPlace(r: Row, plan: Plan, b: nat, c: nat)
    requires plan.Valid()
  {
    && KeyOf(r) == BatchKey(b, plan.repeats) && r.batchId == BatchId(r.pose, r.repetition) && r.camera == c
    && 0 <= r.pose < |plan.poses| && r.commanded == plan.poses[r.pose] && r.session != ""
  }

  /** Row r of a successful batch whose first row is `lead` and whose stamps span `span` ns. */
  ghost predicate OkRowOf(r: Row, lead: Row, span: int, settle: int) {
    && r.status == Ok && r.session == lead.session
    && r.issue == lead.issue && r.ack == lead.ack && r.barrier == lead.barrier
    && 0 < r.issue <= r.ack && r.barrier == r.ack + settle && r.barrier < r.stamp
    && r.image == ImageId(r.session, r.camera, r.stamp)
    && r.stampS == Seconds(r.stamp) && r.spanS == Seconds(span)
  }

  /** Batch b as the writer commits it: one row per camera, all failed or all successful. */
  ghost predicate WriterBatch(batch: seq<Row>, plan: Plan, b: nat, settle: int)
    requires plan.Valid()
  {
    && |batch| == plan.cameras
    && (forall c {:trigger batch[c]} :: 0 <= c < |batch| ==> RowInPlace(batch[c], plan, b, c))
    && (|| (forall c {:trigger batch[c]} :: 0 <= c < |batch| ==>
              batch[c].status == Status.Failed && batch[c].session == batch[0].session)
        || (&& Span(StampPairs(batch)) <= plan.slopNs
            && forall c {:trigger batch[c]} :: 0 <= c < |batch| ==>
                 OkRowOf(batch[c], batch[0], Span(StampPairs(batch)), settle)))
  }

  predicate IsOk(batch: seq<Row>) {
    |batch| > 0 && batch[0].status.Ok?
  }

  /** Two batches of one session use each camera's frames in order. */
  ghost predicate InSequence(a: seq<Row>, b: seq<Row>) {
    IsOk(a) && IsOk(b) && a[0].session == b[0].session ==>
      |a| == |b| && forall c {:trigger a[c]} :: 0 <= c < |a| ==> a[c].stamp < b[c].stamp
  }

  ghost predicate Written(log: Log, plan: Plan, settle: int)
    requires plan.Valid()
  {
    && |log| <= plan.Batches()
    && (forall b {:trigger log[b]} :: 0 <= b < |log| ==> WriterBatch(log[b], plan, b, settle))
    && (forall a, b {:trigger InSequence(log[a], log[b])} :: 0 <= a < b < |log| ==> InSequence(log[a], log[b]))
  }

  lemma WrittenPrefix(log: Log, plan: Plan, settle: int, n: nat)
    requires plan.Valid() && Written(log, plan, settle) && n <= |log|
    ensures Written(log[..n], plan, settle)
  {
    hide WriterBatch, InSequence;
    forall a, b {:trigger InSequence(log[..n][a], log[..n][b])} | 0 <= a < b < n
      ensures InSequence(log[..n][a], log[..n][b])
    {
      assert InSequence(log[a], log[b]);
    }
  }

  // ---------------------------------------------------------------- the audit's view of it

  function Keys(n: nat, repeats: nat): seq<Key>
    requires repeats >= 1
  {
    seq(n, b requires 0 <= b < n => BatchKey(b, repeats))
  }

  lemma MultipleAtLeast(d: int, n: int)
    requires d >= 1 && n >= 0
    ensures d * n >= n
  {
  }

  lemma QuotientOrder(q: int, x: int, p: int, y: int, repeats: int)
    requires 0 <= x < repeats && 0 <= y < repeats && q * repeats + x < p * repeats + y
    ensures q < p || (q == p && x < y)
  {
    var d := q - p;
    assert q * repeats == p * repeats + d * repeats;
    if d >= 1 {
      MultipleAtLeast(d, repeats);
    }
  }

  lemma DivisionOrder(a: nat, b: nat, repeats: nat)
    requires repeats >= 1 && a < b
    ensures a / repeats < b / repeats || (a / repeats == b / repeats && a % repeats < b % repeats)
  {
    QuotientOrder(a / repeats, a % repeats, b / repeats, b % repeats, repeats);
  }

  lemma KeysAreOrdered(n: nat, repeats: nat)
    requires repeats >= 1
    ensures SortedBy(Keys(n, repeats), KeyAtMost)
    ensures forall a, b :: 0 <= a < b < n ==> Keys(n, repeats)[a] != Keys(n, repeats)[b]
  {
    forall a, b | 0 <= a < b < n
      ensures KeyAtMost(Keys(n, repeats)[a], Keys(n, repeats)[b]) && Keys(n, repeats)[a] != Keys(n, repeats)[b]
    {
      DivisionOrder(a, b, repeats);
    }
  }

  lemma BatchRowsHaveKey(batch: seq<Row>, plan: Plan, b: nat, settle: int)
    requires plan.Valid() && WriterBatch(batch, plan, b, settle)
    ensures |batch| > 0 && forall r :: r in batch ==> KeyOf(r) == BatchKey(b, plan.repeats)
  {
    forall r | r in batch
      ensures KeyOf(r) == BatchKey(b, plan.repeats)
    {
      var c :| 0 <= c < |batch| && batch[c] == r;
      assert RowInPlace(batch[c], plan, b, c);
    }
  }

  lemma NextKeyIsNew(n: nat, repeats: nat)
    requires repeats >= 1
    ensures BatchKey(n, repeats) !in Keys(n, repeats)
    ensures Keys(n + 1, repeats) == Keys(n, repeats) + [BatchKey(n, repeats)]
  {
    if BatchKey(n, repeats) in Keys(n, repeats) {
      var a :| 0 <= a < n && Keys(n, repeats)[a] == BatchKey(n, repeats);
      DivisionOrder(a, n, repeats);
    }
  }

  /** The file's batches appear in plan order. */
  lemma {:induction false} FileIsInPlanOrder(log: Log, plan: Plan, settle: int)
    requires plan.Valid() && Written(log, plan, settle)
    ensures KeyList(Flatten(log)) == Keys(|log|, plan.repeats)
    ensures NextBatch(Flatten(log), plan.repeats) == |log|
  {
    hide WriterBatch, InSequence, KeyList, NextBatch;
    if log == [] {
      EmptyFile(plan.repeats);
    } else {
      var n := |log| - 1;
      WrittenPrefix(log, plan, settle, n);
      FileIsInPlanOrder(log[..n], plan, settle);
      BatchRowsHaveKey(log[n], plan, n, settle);
      NextKeyIsNew(n, plan.repeats);
      BatchKeyIndex(n, plan.repeats);
      KeyListAppend(Flatten(log[..n]), log[n], BatchKey(n, plan.repeats));
      NextBatchAppend(Flatten(log[..n]), log[n], BatchKey(n, plan.repeats), plan.repeats, n);
    }
  }

  lemma EmptyFile(repeats: nat)
    ensures KeyList([]) == [] && NextBatch([], repeats) == 0
  {
  }

  /** Grouping the file's rows by key gives back the batches that were written. */
  lemma {:induction false} FileGroupsBack(log: Log, plan: Plan, settle: int, b: nat)
    requires plan.Valid() && Written(log, plan, settle) && b < |log|
    ensures RowsOf(Flatten(log), BatchKey(b, plan.repeats)) == log[b]
  {
    hide WriterBatch, InSequence, RowsOf;
    var n := |log| - 1;
    var init, last, key := log[..n], log[n], BatchKey(b, plan.repeats);
    WrittenPrefix(log, plan, settle, n);
    BatchRowsHaveKey(last, plan, n, settle);
    RowsOfAppend(Flatten(init), last, key);
    RowsOfUniform(last, BatchKey(n, plan.repeats), key);
    if b < n {
      FileGroupsBack(init, plan, settle, b);
      DivisionOrder(b, n, plan.repeats);
    } else {
      FileIsInPlanOrder(init, plan, settle);
      NextKeyIsNew(n, plan.repeats);
      KeyListMembers(Flatten(init), key);
    }
  }

  lemma NextBatchStep(rows: seq<Row>, r: Row, repeats: nat)
    ensures var i := Index(KeyOf(r), repeats) + 1;
            var next := NextBatch(rows, repeats);
            NextBatch(rows + [r], repeats) == if rows == [] || i > next then i else next
  {
    hide Index;
    assert (rows + [r])[..|rows|] == rows;
  }

  lemma {:induction false} NextBatchAppend(a: seq<Row>, b: seq<Row>, key: Key, repeats: nat, n: nat)
    requires |b| > 0 && (forall r :: r in b ==> KeyOf(r) == key)
    requires Index(key, repeats) == n && NextBatch(a, repeats) == n
    ensures NextBatch(a + b, repeats) == n + 1
  {
    hide Index, NextBatch;
    var m := |b| - 1;
    assert a + b == (a + b[..m]) + [b[m]];
    assert b[m] in b;
    NextBatchStep(a + b[..m], b[m], repeats);
    if m > 0 {
      NextBatchAppend(a, b[..m], key, repeats, n);
    } else {
      assert a + b[..0] == a;
    }
  }

  /** The rows of the successful batches, in plan order. */
  ghost function OkFlat(log: Log): seq<Row> {
    if log == [] then [] else
      var n := |log| - 1;
      OkFlat(log[..n]) + (if IsOk(log[n]) then log[n] else [])
  }

  lemma {:induction false} OkRowsOfKeys(log: Log, plan: Plan, settle: int, n: nat)
    requires plan.Valid() && Written(log, plan, settle) && n <= |log|
    ensures OkRows(Flatten(log), Keys(n, plan.repeats)) == OkFlat(log[..n])
  {
    hide WriterBatch, InSequence, RowsOf;
    if n > 0 {
      OkRowsOfKeys(log, plan, settle, n - 1);
      NextKeyIsNew(n - 1, plan.repeats);
      FileGroupsBack(log, plan, settle, n - 1);
      assert log[..n][..n - 1] == log[..n - 1];
      assert Keys(n, plan.repeats)[..n - 1] == Keys(n - 1, plan.repeats);
    }
  }

  /** The audit walks exactly the successful batches, in the order in which they were written. */
  lemma AuditWalksTheLog(log: Log, plan: Plan, settle: int)
    requires plan.Valid() && Written(log, plan, settle)
    ensures OkRows(Flatten(log), AuditOrder(Flatten(log))) == OkFlat(log)
  {
    hide Written;
    FileIsInPlanOrder(log, plan, settle);
    KeysAreOrdered(|log|, plan.repeats);
    SortedIsIdentity(Keys(|log|, plan.repeats), KeyAtMost);
    OkRowsOfKeys(log, plan, settle, |log|);
    assert log[..|log|] == log;
  }

  lemma {:induction false} OkFlatMembers(log: Log, i: nat) returns (b: nat, c: nat)
    requires i < |OkFlat(log)|
    ensures b < |log| && IsOk(log[b]) && c < |log[b]| && OkFlat(log)[i] == log[b][c]
  {
    var n := |log| - 1;
    if i < |OkFlat(log[..n])| {
      b, c := OkFlatMembers(log[..n], i);
    } else {
      b, c := n, i - |OkFlat(log[..n])|;
    }
  }

  lemma {:induction false} OkFlatContains(log: Log, b: nat)
    requires b < |log| && IsOk(log[b])
    ensures exists i :: 0 <= i < |OkFlat(log)| && OkFlat(log)[i] == log[b][0]
  {
    var n := |log| - 1;
    if b < n {
      OkFlatContains(log[..n], b);
      var i :| 0 <= i < |OkFlat(log[..n])| && OkFlat(log[..n])[i] == log[..n][b][0];
      assert OkFlat(log)[i] == log[b][0];
    } else {
      assert OkFlat(log)[|OkFlat(log[..n])|] == log[b][0];
    }
  }

  lemma OkBatchFacts(batch: seq<Row>, plan: Plan, b: nat, settle: int, c: nat)
    requires plan.Valid() && WriterBatch(batch, plan, b, settle) && IsOk(batch) && c < |batch|
    ensures OkRowOf(batch[c], batch[0], Span(StampPairs(batch)), settle) && batch[c].camera == c && batch[c].session != ""
    ensures Span(StampPairs(batch)) <= plan.slopNs
  {
    hide Span, StampPairs;
    assert RowInPlace(batch[c], plan, b, c);
    assert batch[0] == batch[0];
    assert batch[c] == batch[c];
  }

  /** Every successful row passes the identity check exactly when the settle time was not negative. */
  lemma OkFlatIdentified(log: Log, plan: Plan, settle: int)
    requires plan.Valid() && Written(log, plan, settle)
    ensures AllIdentified(OkFlat(log)) <==> settle >= 0 || forall b :: 0 <= b < |log| ==> !IsOk(log[b])
  {
    hide WriterBatch, InSequence, Span, StampPairs;
    if settle >= 0 || forall b :: 0 <= b < |log| ==> !IsOk(log[b]) {
      forall i | 0 <= i < |OkFlat(log)|
        ensures RowIdentity(OkFlat(log)[i])
      {
        var b, c := OkFlatMembers(log, i);
        OkBatchFacts(log[b], plan, b, settle, c);
      }
    } else {
      var b :| 0 <= b < |log| && IsOk(log[b]);
      OkFlatContains(log, b);
      OkBatchFacts(log[b], plan, b, settle, 0);
      var i :| 0 <= i < |OkFlat(log)| && OkFlat(log)[i] == log[b][0];
      assert !RowIdentity(OkFlat(log)[i]);
    }
  }

  /** Per session and camera the stamps of the written rows strictly increase. */
  lemma {:induction false} OkFlatIncreases(log: Log, plan: Plan, settle: int)
    requires plan.Valid() && Written(log, plan, settle)
    ensures StampsIncrease(OkFlat(log))
  {
    hide WriterBatch, Span, StampPairs;
    if log != [] {
      var n := |log| - 1;
      WrittenPrefix(log, plan, settle, n);
      OkFlatIncreases(log[..n], plan, settle);
      if IsOk(log[n]) {
        var flat, base := OkFlat(log), OkFlat(log[..n]);
        forall i, j | 0 <= i < j < |flat| && flat[i].session == flat[j].session && flat[i].camera == flat[j].camera
          ensures flat[i].stamp < flat[j].stamp
        {
          if j >= |base| {
            OkBatchFacts(log[n], plan, n, settle, j - |base|);
            if i >= |base| {
              OkBatchFacts(log[n], plan, n, settle, i - |base|);
            } else {
              var b, c := OkFlatMembers(log[..n], i);
              OkBatchFacts(log[b], plan, b, settle, c);
              assert InSequence(log[b], log[n]);
            }
          } else {
            assert flat[i] == base[i] && flat[j] == base[j];
          }
        }
      }
    }
  }

  // ---------------------------------------------------------------- the verdict

  lemma {:induction false} SecondsOfExtremes(batch: seq<Row>)
    requires |batch| > 0 && forall c :: 0 <= c < |batch| ==> batch[c].stampS == Seconds(batch[c].stamp)
    ensures MaxS(batch) == Seconds(MaxStamp(StampPairs(batch))) && MinS(batch) == Seconds(MinStamp(StampPairs(batch)))
  {
    if |batch| > 1 {
      SecondsOfExtremes(batch[1..]);
      assert StampPairs(batch)[1..] == StampPairs(batch[1..]);
    }
  }

  /** A written successful batch passes the batch-wide checks. */
  lemma OkBatchPasses(batch: seq<Row>, plan: Plan, b: nat, settle: int)
    requires plan.Valid() && WriterBatch(batch, plan, b, settle)
    ensures OkBatchSound(batch, plan)
  {
    hide Span, StampPairs, WriterBatch;
    if IsOk(batch) {
      StampPairsLength(batch);
      forall c | 0 <= c < |batch|
        ensures OkRowOf(batch[c], batch[0], Span(StampPairs(batch)), settle)
      {
        OkBatchFacts(batch, plan, b, settle, c);
      }
      OkBatchFacts(batch, plan, b, settle, 0);
      SecondsOfExtremes(batch);
      SpanInSeconds(StampPairs(batch), plan.slopNs);
    }
  }

  lemma StampPairsLength(batch: seq<Row>)
    ensures |StampPairs(batch)| == |batch|
  {
  }

  lemma SpanInSeconds(b: seq<Pair>, slop: int)
    requires |b| > 0 && Span(b) <= slop
    ensures Seconds(MaxStamp(b)) - Seconds(MinStamp(b)) == Seconds(Span(b))
    ensures 0.0 <= Seconds(Span(b)) <= Seconds(slop) + NS
  {
    StampsWithin(b, 0);
  }

  lemma WriterBatchIsComplete(batch: seq<Row>, plan: Plan, b: nat, settle: int)
    requires plan.Valid() && WriterBatch(batch, plan, b, settle)
    ensures CompleteBatch(batch, plan.cameras)
    ensures forall r :: r in batch ==> r.batchId == BatchId(r.pose, r.repetition) && PoseCoherent(r, plan)
  {
    hide Span, StampPairs;
    forall c: nat | c < |batch|
      ensures RowInPlace(batch[c], plan, b, c) && (batch[c].status.Ok? || batch[c].status.Failed?)
      ensures batch[c].status == batch[0].status
    {
      assert batch[c] == batch[c] && batch[0] == batch[0];
    }
    forall c | 0 <= c < plan.cameras
      ensures HasCamera(batch, c)
    {
      assert batch[c] in batch && batch[c].camera == c;
    }
    forall r | r in batch
      ensures r.batchId == BatchId(r.pose, r.repetition) && PoseCoherent(r, plan)
    {
      var c :| 0 <= c < |batch| && batch[c] == r;
      assert RowInPlace(batch[c], plan, b, c);
    }
  }

  lemma {:induction false} FlattenMembers(log: Log, r: Row)
    ensures r in Flatten(log) ==> exists b :: 0 <= b < |log| && r in log[b]
  {
    if log != [] && r in Flatten(log) {
      var n := |log| - 1;
      FlattenMembers(log[..n], r);
      if r in Flatten(log[..n]) {
        var b :| 0 <= b < |log[..n]| && r in log[..n][b];
        assert r in log[b];
      }
    }
  }

  lemma FileBatchesPass(log: Log, plan: Plan, settle: int, k: Key)
    requires plan.Valid() && Written(log, plan, settle) && k in KeyList(Flatten(log))
    ensures CompleteBatch(RowsOf(Flatten(log), k), plan.cameras) && OkBatchSound(RowsOf(Flatten(log), k), plan)
  {
    hide WriterBatch, InSequence, CompleteBatch, OkBatchSound, KeyList, RowsOf;
    FileIsInPlanOrder(log, plan, settle);
    var b :| 0 <= b < |log| && Keys(|log|, plan.repeats)[b] == k;
    FileGroupsBack(log, plan, settle, b);
    WriterBatchIsComplete(log[b], plan, b, settle);
    OkBatchPasses(log[b], plan, b, settle);
  }

  lemma FileRowsAreCoherent(log: Log, plan: Plan, settle: int, r: Row)
    requires plan.Valid() && Written(log, plan, settle) && r in Flatten(log)
    ensures r.batchId == BatchId(r.pose, r.repetition) && PoseCoherent(r, plan)
  {
    hide WriterBatch, InSequence, CompleteBatch, PoseCoherent;
    FlattenMembers(log, r);
    var b :| 0 <= b < |log| && r in log[b];
    WriterBatchIsComplete(log[b], plan, b, settle);
  }

  /**
   The audit accepts what the writer has written exactly when the settle time was not
   negative or no batch succeeded, and resumes at the first batch that is missing.
   */
  lemma AuditAcceptsWriter(log: Log, plan: Plan, settle: int)
    requires plan.Valid() && Written(log, plan, settle)
    ensures NextBatch(Flatten(log), plan.repeats) == |log|
    ensures AuditOk(Flatten(log), plan) <==> settle >= 0 || forall b :: 0 <= b < |log| ==> !IsOk(log[b])
  {
    hide WriterBatch, InSequence, CompleteBatch, OkBatchSound, PoseCoherent, AllIdentified, StampsIncrease;
    hide KeyList, RowsOf, NextBatch, OkRows, AuditOrder, ContiguousPrefix, IsOk, Flatten, OkFlat;
    var rows := Flatten(log);
    FileIsInPlanOrder(log, plan, settle);
    AuditWalksTheLog(log, plan, settle);
    OkFlatIdentified(log, plan, settle);
    OkFlatIncreases(log, plan, settle);
    PrefixIsContiguous(|log|, plan);
    forall k | k in KeyList(rows)
      ensures CompleteBatch(RowsOf(rows, k), plan.cameras) && OkBatchSound(RowsOf(rows, k), plan)
    {
      FileBatchesPass(log, plan, settle, k);
    }
    forall r | r in rows
      ensures r.batchId == BatchId(r.pose, r.repetition) && PoseCoherent(r, plan)
    {
      FileRowsAreCoherent(log, plan, settle, r);
    }
  }

  // ---------------------------------------------------------------- what a negative settle time spoils

  /** A camera's row of a first batch whose frames came in with the acknowledgement. */
  function EarlyRow(plan: Plan, settle: int, c: nat): Row
    requires plan.poses != []
  {
    Row(0, 0, BatchId(0, 0), "session", c, Ok, ImageId("session", c, 1), 1, 1, 1, 1 + settle, Seconds(1), 0.0, plan.poses[0])
  }

  function EarlyBatch(plan: Plan, settle: int): seq<Row>
    requires plan.poses != []
  {
    seq(plan.cameras, c requires 0 <= c < plan.cameras => EarlyRow(plan, settle, c))
  }

  lemma EarlyBatchIsWritten(plan: Plan, settle: int)
    requires plan.Valid() && plan.poses != [] && settle < 0 && plan.slopNs >= 0
    ensures Written([EarlyBatch(plan, settle)], plan, settle) && IsOk(EarlyBatch(plan, settle))
  {
    var batch := EarlyBatch(plan, settle);
    SpanBound(StampPairs(batch), 1, 1);
    StampsWithin(StampPairs(batch), 0);
    hide Span, StampPairs;
    assert Span(StampPairs(batch)) == 0;
    MultipleOrder(1, |plan.poses|, plan.repeats);
    assert BatchKey(0, plan.repeats) == Key(0, 0);
    assert WriterBatch(batch, plan, 0, settle);
  }

  lemma OkBatchesFit(log: Log, plan: Plan, settle: int, b: nat)
    requires plan.Valid() && Written(log, plan, settle) && b < |log| && IsOk(log[b])
    ensures plan.poses != [] && plan.slopNs >= 0
  {
    hide StampPairs, Span;
    assert WriterBatch(log[b], plan, b, settle);
    OkBatchFacts(log[b], plan, b, settle, 0);
    assert |plan.poses| == 0 ==> plan.Batches() == 0;
    StampPairsLength(log[b]);
    StampsWithin(StampPairs(log[b]), 0);
    SpanIsNatural(StampPairs(log[b]));
  }

  lemma SpanIsNatural(b: seq<Pair>)
    requires |b| > 0 && MinStamp(b) <= b[0].stamp <= MaxStamp(b)
    ensures Span(b) >= 0
  {
  }

  /**
   The writer can leave an index that the audit refuses exactly under a negative settle
   time, a plan with poses and a limit that some batch can meet.
   */
  lemma SomeIndexIsRefused(plan: Plan, settle: int)
    requires plan.Valid()
    ensures (exists log: Log :: Written(log, plan, settle) && !AuditOk(Flatten(log), plan)) <==>
              settle < 0 && plan.poses != [] && plan.slopNs >= 0
  {
    hide Written, AuditOk;
    if log: Log :| Written(log, plan, settle) && !AuditOk(Flatten(log), plan) {
      AuditAcceptsWriter(log, plan, settle);
      var b :| 0 <= b < |log| && IsOk(log[b]);
      OkBatchesFit(log, plan, settle, b);
    }
    if settle < 0 && plan.poses != [] && plan.slopNs >= 0 {
      var log: Log := [EarlyBatch(plan, settle)];
      EarlyBatchIsWritten(plan, settle);
      AuditAcceptsWriter(log, plan, settle);
      assert IsOk(log[0]);
    }
  }

  lemma PrefixIsContiguous(n: nat, plan: Plan)
    requires plan.Valid() && n <= plan.Batches()
    ensures ContiguousPrefix(Keys(n, plan.repeats), n, plan)
  {
    var keys := Keys(n, plan.repeats);
    forall k | k in keys
      ensures 0 <= k.repetition < plan.repeats && exists b :: 0 <= b < n && k == BatchKey(b, plan.repeats)
    {
      var b :| 0 <= b < n && keys[b] == k;
      assert k == BatchKey(b, plan.repeats);
    }
    forall b | 0 <= b < n
      ensures BatchKey(b, plan.repeats) in keys
    {
      assert keys[b] == BatchKey(b, plan.repeats);
    }
  }

  // ---------------------------------------------------------------- the finished file

  /** Row b * cameras + c of the file is camera c's row of batch b. */
  lemma {:induction false} FlattenAt(log: Log, plan: Plan, settle: int, b: nat, c: nat)
    requires plan.Valid() && Written(log, plan, settle) && b < |log| && c < plan.cameras
    ensures |log[b]| == plan.cameras && |Flatten(log)| == |log| * plan.cameras
    ensures 0 <= b * plan.cameras + c < |Flatten(log)| && Flatten(log)[b * plan.cameras + c] == log[b][c]
  {
    hide InSequence, StampPairs, Span;
    var n := |log| - 1;
    FlattenLength(log, plan, settle);
    assert WriterBatch(log[b], plan, b, settle);
    WrittenPrefix(log, plan, settle, n);
    FlattenLength(log[..n], plan, settle);
    MultipleOrder(b, n, plan.cameras);
    if b < n {
      FlattenAt(log[..n], plan, settle, b, c);
    }
  }

  lemma MultipleOrder(b: nat, n: nat, cameras: nat)
    requires b <= n
    ensures b * cameras <= n * cameras && (n + 1) * cameras == n * cameras + cameras
    ensures b < n ==> b * cameras + cameras <= n * cameras
  {
    assert (n - b) * cameras == n * cameras - b * cameras;
    if b < n {
      MultipleAtLeast(n - b, cameras);
    }
  }

  lemma {:induction false} FlattenLength(log: Log, plan: Plan, settle: int)
    requires plan.Valid() && Written(log, plan, settle)
    ensures |Flatten(log)| == |log| * plan.cameras
  {
    hide InSequence, StampPairs, Span;
    if log != [] {
      var n := |log| - 1;
      WrittenPrefix(log, plan, settle, n);
      FlattenLength(log[..n], plan, settle);
      assert WriterBatch(log[n], plan, n, settle);
      MultipleOrder(n, n, plan.cameras);
    }
  }

  /**
   A finished file holds one row for every pose, repetition and camera, in plan order:
   row i belongs to camera i mod cameras of batch i div cameras, and nothing else is there.
   */
  lemma FinishedFileIsComplete(log: Log, plan: Plan, settle: int, b: nat, c: nat)
    requires plan.Valid() && Written(log, plan, settle) && |log| == plan.Batches()
    requires b < plan.Batches() && c < plan.cameras
    ensures |Flatten(log)| == plan.Batches() * plan.cameras
    ensures 0 <= b * plan.cameras + c < |Flatten(log)|
    ensures RowInPlace(Flatten(log)[b * plan.cameras + c], plan, b, c)
  {
    hide InSequence, StampPairs, Span;
    FlattenAt(log, plan, settle, b, c);
    assert WriterBatch(log[b], plan, b, settle);
  }
}
