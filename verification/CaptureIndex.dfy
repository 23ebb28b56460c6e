/**
 The capture index: one row per camera opportunity, written a whole batch at a time.
 */
module CaptureIndex {
  import opened Options

  datatype Status = Ok | Failed | Other(text: string)

  /** A commanded pose as the plan and every row record it. */
  datatype Pose = Pose(x: real, y: real, yaw: real, positionId: int, headingId: int)

  datatype BatchId = BatchId(pose: int, repetition: int)

  datatype ImageId = NoImage | ImageId(session: string, camera: nat, stamp: int)

  /** A row; the fields a failed row leaves blank are 0 or NoImage. */
  datatype Row = Row(pose: int, repetition: int, batchId: BatchId, session: string, camera: nat, status: Status,
                     image: ImageId, stamp: int, issue: int, ack: int, barrier: int,
                     stampS: real, spanS: real, commanded: Pose)

  /** The frozen plan: poses in order, repetitions per pose, cameras 0..cameras-1, batch slop in ns. */
  datatype Plan = Plan(poses: seq<Pose>, repeats: nat, cameras: nat, slopNs: int) {
    predicate Valid() { repeats >= 1 && cameras >= 1 }

    function Batches(): nat { |poses| * repeats }
  }

  const NS := 0.000000001

  function Seconds(ns: int): real { ns as real * NS }

  /** What identifies a batch. */
  datatype Key = Key(pose: int, repetition: int)

  function KeyOf(row: Row): Key { Key(row.pose, row.repetition) }

  /** Batch b of the plan: its pose and its repetition of that pose. */
  function BatchKey(b: nat, repeats: nat): Key
    requires repeats >= 1
  {
    Key(b / repeats, b % repeats)
  }

  function Index(k: Key, repeats: nat): int {
    k.pose * repeats + k.repetition
  }

  lemma BatchKeyIndex(b: nat, repeats: nat)
    requires repeats >= 1
    ensures Index(BatchKey(b, repeats), repeats) == b
  {
  }

  /** The rows of one batch, in file order. */
  function RowsOf(rows: seq<Row>, k: Key): seq<Row> {
    if rows == [] then [] else
      var n := |rows| - 1;
      if KeyOf(rows[n]) == k then RowsOf(rows[..n], k) + [rows[n]] else RowsOf(rows[..n], k)
  }

  /** The batches in order of first appearance. */
  function KeyList(rows: seq<Row>): seq<Key> {
    if rows == [] then [] else
      var n := |rows| - 1;
      if KeyOf(rows[n]) in KeyList(rows[..n]) then KeyList(rows[..n]) else KeyList(rows[..n]) + [KeyOf(rows[n])]
  }

  lemma {:induction false} RowsOfMembers(rows: seq<Row>, k: Key, r: Row)
    ensures r in RowsOf(rows, k) <==> r in rows && KeyOf(r) == k
  {
    if rows != [] {
      var n := |rows| - 1;
      RowsOfMembers(rows[..n], k, r);
      assert rows == rows[..n] + [rows[n]];
    }
  }

  lemma {:induction false} KeyListMembers(rows: seq<Row>, k: Key)
    ensures k in KeyList(rows) <==> RowsOf(rows, k) != []
    ensures forall i, j :: 0 <= i < j < |KeyList(rows)| ==> KeyList(rows)[i] != KeyList(rows)[j]
  {
    if rows != [] {
      KeyListMembers(rows[..|rows| - 1], k);
    }
  }

  lemma {:induction false} RowsOfAppend(a: seq<Row>, b: seq<Row>, k: Key)
    ensures RowsOf(a + b, k) == RowsOf(a, k) + RowsOf(b, k)
  {
    if b == [] {
      assert a + b == a;
    } else {
      var n := |b| - 1;
      RowsOfAppend(a, b[..n], k);
      assert (a + b)[..|a + b| - 1] == a + b[..n];
    }
  }

  lemma {:induction false} RowsOfUniform(b: seq<Row>, k: Key, other: Key)
    requires forall r :: r in b ==> KeyOf(r) == k
    ensures RowsOf(b, k) == b
    ensures other != k ==> RowsOf(b, other) == []
  {
    if b != [] {
      var n := |b| - 1;
      RowsOfUniform(b[..n], k, other);
      assert b == b[..n] + [b[n]];
    }
  }

  /** Appending a whole new batch appends its key. */
  lemma {:induction false} KeyListAppend(a: seq<Row>, b: seq<Row>, k: Key)
    requires |b| > 0 && (forall r :: r in b ==> KeyOf(r) == k) && k !in KeyList(a)
    ensures KeyList(a + b) == KeyList(a) + [k]
  {
    var n := |b| - 1;
    assert (a + b)[..|a + b| - 1] == a + b[..n];
    assert KeyOf(b[n]) == k;
    if n > 0 {
      KeyListAppend(a, b[..n], k);
    } else {
      assert a + b[..0] == a;
    }
  }

  /** Collects the rows of a batch and replaces the file once the last of them is in. */
  class CaptureIndexWriter {
    const cameraCount: nat
    var file: seq<Row>       // the index on disk
    var rows: seq<Row>
    var pending: seq<Row>

    ghost predicate Valid()
      reads this
    {
      file == rows && |pending| < cameraCount
    }

    constructor (existing: Option<seq<Row>>, rows: seq<Row>, cameraCount: nat)
      requires cameraCount >= 1 && (existing.Some? ==> existing.value == rows)
      ensures Valid() && this.cameraCount == cameraCount && file == rows && pending == []
    {
      this.cameraCount := cameraCount;
      this.rows, pending := rows, [];
      file := if existing.None? then rows else existing.value;
    }

    method WriteRow(row: Row)
      requires Valid()
      modifies this
      ensures Valid()
      ensures if |old(pending)| + 1 == cameraCount
              then file == old(file) + (old(pending) + [row]) && pending == []
              else file == old(file) && pending == old(pending) + [row]
    {
      pending := pending + [row];
      if |pending| == cameraCount {
        var combined := rows + pending;
        file := combined;
        rows, pending := combined, [];
      }
    }

    /** Refuses to go on over an incomplete camera transaction. */
    method Flush() returns (complete: bool)
      requires Valid()
      ensures complete <==> pending == []
    {
      return pending == [];
    }
  }
}
