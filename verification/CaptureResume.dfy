/**
 Resuming an index that somebody else wrote: whatever passes the audit still passes it
 after the writer has added its next batches.
 */
module CaptureResume {
  import opened Sorting
  import opened BatchChooser
  import opened CaptureIndex
  import opened CaptureAudit
  import opened CaptureLog

  /** The successful rows of an index, in the order in which the audit walks them. */
  ghost function OkInOrder(rows: seq<Row>): seq<Row> {
    OkRows(rows, AuditOrder(rows))
  }

  /** What a batch adds to them. */
  ghost function OkPart(batch: seq<Row>): seq<Row> {
    if IsOk(batch) then batch else []
  }

  /** Every row of the batch is newer than all earlier successful rows of its session and camera. */
  ghost predicate Newer(flat: seq<Row>, batch: seq<Row>) {
    forall i, c :: 0 <= i < |flat| && 0 <= c < |batch| && flat[i].session == batch[c].session && flat[i].camera == batch[c].camera ==>
      flat[i].stamp < batch[c].stamp
  }

  lemma NextKeyIsMissing(rows: seq<Row>, plan: Plan, n: nat)
    requires plan.Valid() && ContiguousPrefix(KeyList(rows), n, plan)
    ensures BatchKey(n, plan.repeats) !in KeyList(rows)
    ensures forall k :: k in KeyList(rows) ==> KeyAtMost(k, BatchKey(n, plan.repeats))
  {
    forall k | k in KeyList(rows)
      ensures k != BatchKey(n, plan.repeats) && KeyAtMost(k, BatchKey(n, plan.repeats))
    {
      var b :| 0 <= b < n && k == BatchKey(b, plan.repeats);
      DivisionOrder(b, n, plan.repeats);
    }
  }

  lemma PrefixExtends(keys: seq<Key>, n: nat, plan: Plan)
    requires plan.Valid() && ContiguousPrefix(keys, n, plan) && n < plan.Batches()
    ensures ContiguousPrefix(keys + [BatchKey(n, plan.repeats)], n + 1, plan)
  {
    var more, key := keys + [BatchKey(n, plan.repeats)], BatchKey(n, plan.repeats);
    forall k | k in more
      ensures 0 <= k.repetition < plan.repeats && exists b :: 0 <= b < n + 1 && k == BatchKey(b, plan.repeats)
    {
      if k in keys {
        var b :| 0 <= b < n && k == BatchKey(b, plan.repeats);
        assert b < n + 1;
      } else {
        assert k == BatchKey(n, plan.repeats);
      }
    }
    forall b | 0 <= b < n + 1
      ensures BatchKey(b, plan.repeats) in more
    {
      if b == n {
        assert more[|keys|] == key;
      } else {
        assert BatchKey(b, plan.repeats) in keys;
      }
    }
  }

  /** A new batch neither joins nor disturbs the batches that are there. */
  lemma BatchesSideBySide(rows: seq<Row>, batch: seq<Row>, key: Key, k: Key)
    requires (forall r :: r in batch ==> KeyOf(r) == key) && key !in KeyList(rows)
    ensures RowsOf(rows + batch, k) == if k == key then batch else RowsOf(rows, k)
  {
    hide RowsOf, KeyList;
    RowsOfAppend(rows, batch, k);
    RowsOfUniform(batch, key, k);
    KeyListMembers(rows, key);
  }

  lemma {:induction false} OkRowsUndisturbed(rows: seq<Row>, batch: seq<Row>, key: Key, keys: seq<Key>)
    requires (forall r :: r in batch ==> KeyOf(r) == key) && key !in KeyList(rows) && key !in keys
    ensures OkRows(rows + batch, keys) == OkRows(rows, keys)
  {
    hide RowsOf, KeyList;
    if keys != [] {
      var n := |keys| - 1;
      OkRowsUndisturbed(rows, batch, key, keys[..n]);
      BatchesSideBySide(rows, batch, key, keys[n]);
    }
  }

  /** The audit walks the new batch last. */
  lemma OkInOrderAppend(rows: seq<Row>, batch: seq<Row>, plan: Plan, n: nat)
    requires plan.Valid() && ContiguousPrefix(KeyList(rows), n, plan)
    requires |batch| > 0 && forall r :: r in batch ==> KeyOf(r) == BatchKey(n, plan.repeats)
    ensures OkInOrder(rows + batch) == OkInOrder(rows) + OkPart(batch)
  {
    hide RowsOf, KeyList, ContiguousPrefix, KeyAtMost, Sorted;
    var key := BatchKey(n, plan.repeats);
    NextKeyIsMissing(rows, plan, n);
    KeyListAppend(rows, batch, key);
    SortedAppend(KeyList(rows), key, KeyAtMost);
    SortedMembers(KeyList(rows), KeyAtMost);
    OkRowsUndisturbed(rows, batch, key, AuditOrder(rows));
    BatchesSideBySide(rows, batch, key, key);
    assert (AuditOrder(rows) + [key])[..|AuditOrder(rows)|] == AuditOrder(rows);
  }

  lemma FlatExtends(flat: seq<Row>, batch: seq<Row>, plan: Plan, n: nat, settle: int)
    requires plan.Valid() && WriterBatch(batch, plan, n, settle) && settle >= 0 && IsOk(batch)
    requires AllIdentified(flat) && StampsIncrease(flat) && Newer(flat, batch)
    ensures AllIdentified(flat + batch) && StampsIncrease(flat + batch)
  {
    hide WriterBatch, StampPairs, Span;
    var more := flat + batch;
    forall i: nat | |flat| <= i < |more|
      ensures RowIdentity(more[i]) && more[i].camera == i - |flat|
    {
      OkBatchFacts(batch, plan, n, settle, i - |flat|);
    }
    forall i, j | 0 <= i < j < |more| && more[i].session == more[j].session && more[i].camera == more[j].camera
      ensures more[i].stamp < more[j].stamp
    {
      if j < |flat| {
        assert more[i] == flat[i] && more[j] == flat[j];
      }
    }
  }

  lemma OldBatchesPass(rows: seq<Row>, batch: seq<Row>, plan: Plan, n: nat, settle: int, k: Key)
    requires plan.Valid() && ContiguousPrefix(KeyList(rows), n, plan) && WriterBatch(batch, plan, n, settle)
    requires forall seen :: seen in KeyList(rows) ==>
               CompleteBatch(RowsOf(rows, seen), plan.cameras) && OkBatchSound(RowsOf(rows, seen), plan)
    requires k in KeyList(rows + batch)
    ensures CompleteBatch(RowsOf(rows + batch, k), plan.cameras) && OkBatchSound(RowsOf(rows + batch, k), plan)
  {
    hide RowsOf, KeyList, ContiguousPrefix, WriterBatch, CompleteBatch, OkBatchSound;
    var key := BatchKey(n, plan.repeats);
    NextKeyIsMissing(rows, plan, n);
    BatchRowsHaveKey(batch, plan, n, settle);
    KeyListAppend(rows, batch, key);
    BatchesSideBySide(rows, batch, key, k);
    WriterBatchIsComplete(batch, plan, n, settle);
    OkBatchPasses(batch, plan, n, settle);
  }

  /**
   Any index that passes the audit still passes it after the writer's next batch, whoever
   wrote the index, and the next batch is then the one after.
   */
  lemma NextBatchKeepsTheAudit(rows: seq<Row>, batch: seq<Row>, plan: Plan, n: nat, settle: int)
    requires plan.Valid() && AuditOk(rows, plan) && n == NextBatch(rows, plan.repeats) < plan.Batches() && settle >= 0
    requires WriterBatch(batch, plan, n, settle) && (IsOk(batch) ==> Newer(OkInOrder(rows), batch))
    ensures AuditOk(rows + batch, plan) && NextBatch(rows + batch, plan.repeats) == n + 1
    ensures OkInOrder(rows + batch) == OkInOrder(rows) + OkPart(batch)
  {
    hide RowsOf, KeyList, ContiguousPrefix, WriterBatch, CompleteBatch, OkBatchSound, NextBatch, AllIdentified, StampsIncrease;
    hide OkRows, AuditOrder, PoseCoherent;
    var key := BatchKey(n, plan.repeats);
    BatchRowsHaveKey(batch, plan, n, settle);
    BatchKeyIndex(n, plan.repeats);
    NextKeyIsMissing(rows, plan, n);
    KeyListAppend(rows, batch, key);
    NextBatchAppend(rows, batch, key, plan.repeats, n);
    PrefixExtends(KeyList(rows), n, plan);
    OkInOrderAppend(rows, batch, plan, n);
    WriterBatchIsComplete(batch, plan, n, settle);
    if IsOk(batch) {
      FlatExtends(OkInOrder(rows), batch, plan, n, settle);
    } else {
      assert OkInOrder(rows) + [] == OkInOrder(rows);
    }
    forall k | k in KeyList(rows + batch)
      ensures CompleteBatch(RowsOf(rows + batch, k), plan.cameras) && OkBatchSound(RowsOf(rows + batch, k), plan)
    {
      OldBatchesPass(rows, batch, plan, n, settle, k);
    }
  }

  /** What a resumed session writes after an index of n batches. */
  ghost predicate WrittenAfter(n: nat, log: Log, plan: Plan, settle: int)
    requires plan.Valid()
  {
    && n + |log| <= plan.Batches()
    && (forall b {:trigger log[b]} :: 0 <= b < |log| ==> WriterBatch(log[b], plan, n + b, settle))
    && (forall a, b {:trigger InSequence(log[a], log[b])} :: 0 <= a < b < |log| ==> InSequence(log[a], log[b]))
  }

  /** None of the log's sessions has written to the index before. */
  ghost predicate FreshSessions(rows: seq<Row>, log: Log) {
    forall r, b :: r in rows && 0 <= b < |log| && |log[b]| > 0 ==> r.session != log[b][0].session
  }

  lemma {:induction false} OkRowsComeFromTheFile(rows: seq<Row>, keys: seq<Key>, i: nat)
    requires i < |OkRows(rows, keys)|
    ensures OkRows(rows, keys)[i] in rows
  {
    hide RowsOf;
    var n := |keys| - 1;
    var before := OkRows(rows, keys[..n]);
    if i < |before| {
      OkRowsComeFromTheFile(rows, keys[..n], i);
    } else {
      RowsOfMembers(rows, keys[n], OkRows(rows, keys)[i]);
    }
  }

  lemma LastBatchIsNewer(rows: seq<Row>, log: Log, plan: Plan, n: nat, settle: int)
    requires plan.Valid() && WrittenAfter(n, log, plan, settle) && FreshSessions(rows, log) && |log| > 0
    requires IsOk(log[|log| - 1])
    ensures Newer(OkInOrder(rows) + OkFlat(log[..|log| - 1]), log[|log| - 1])
  {
    hide WriterBatch, StampPairs, Span, OkRows, AuditOrder;
    var m := |log| - 1;
    var init, batch, earlier := log[..m], log[m], OkInOrder(rows);
    var flat := earlier + OkFlat(init);
    forall i, c | 0 <= i < |flat| && 0 <= c < |batch| && flat[i].session == batch[c].session && flat[i].camera == batch[c].camera
      ensures flat[i].stamp < batch[c].stamp
    {
      OkBatchFacts(batch, plan, n + m, settle, c);
      if i < |earlier| {
        OkRowsComeFromTheFile(rows, AuditOrder(rows), i);
      } else {
        var b, e := OkFlatMembers(init, i - |earlier|);
        OkBatchFacts(log[b], plan, n + b, settle, e);
        assert InSequence(log[b], log[m]);
      }
    }
  }

  lemma WrittenAfterPrefix(n: nat, log: Log, plan: Plan, settle: int)
    requires plan.Valid() && WrittenAfter(n, log, plan, settle) && |log| > 0
    ensures WrittenAfter(n, log[..|log| - 1], plan, settle)
  {
    hide WriterBatch, InSequence;
    var init := log[..|log| - 1];
    forall a, b {:trigger InSequence(init[a], init[b])} | 0 <= a < b < |init|
      ensures InSequence(init[a], init[b])
    {
      assert InSequence(log[a], log[b]);
    }
  }

  /**
   Whatever passed the audit passes it again after any number of batches that a resume
   under fresh session ids has added, and the resume point has moved on by that number.
   */
  lemma {:induction false} ResumeKeepsTheAudit(rows: seq<Row>, log: Log, plan: Plan, n: nat, settle: int)
    requires plan.Valid() && AuditOk(rows, plan) && n == NextBatch(rows, plan.repeats) && settle >= 0
    requires WrittenAfter(n, log, plan, settle) && FreshSessions(rows, log)
    ensures AuditOk(rows + Flatten(log), plan) && NextBatch(rows + Flatten(log), plan.repeats) == n + |log|
    ensures OkInOrder(rows + Flatten(log)) == OkInOrder(rows) + OkFlat(log)
    decreases |log|
  {
    hide AuditOk, WriterBatch, InSequence, NextBatch, OkInOrder, FreshSessions;
    if log == [] {
      assert rows + [] == rows;
      assert OkInOrder(rows) + [] == OkInOrder(rows);
    } else {
      var m := |log| - 1;
      var init, batch := log[..m], log[m];
      WrittenAfterPrefix(n, log, plan, settle);
      FreshPrefix(rows, log);
      ResumeKeepsTheAudit(rows, init, plan, n, settle);
      if IsOk(batch) {
        LastBatchIsNewer(rows, log, plan, n, settle);
      }
      NextBatchKeepsTheAudit(rows + Flatten(init), batch, plan, n + m, settle);
      assert rows + Flatten(log) == rows + Flatten(init) + batch;
      assert OkInOrder(rows) + OkFlat(log) == OkInOrder(rows) + OkFlat(init) + OkPart(batch);
    }
  }

  lemma FreshPrefix(rows: seq<Row>, log: Log)
    requires FreshSessions(rows, log) && |log| > 0
    ensures FreshSessions(rows, log[..|log| - 1])
  {
    var init: Log := log[..|log| - 1];
    forall r, b | r in rows && 0 <= b < |init| && |init[b]| > 0
      ensures r.session != init[b][0].session
    {
      assert log[b] == init[b];
    }
  }
}
