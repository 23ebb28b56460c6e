/**
 A capture over any number of processes: each is started or resumed, captures batches in
 plan order, and may be killed between two attempts, between two batches or half-way
 through the rows of one.
 */
module CaptureRun {
  import opened Options
  import opened BatchChooser
  import opened CaptureEvents
  import opened CaptureSteps
  import opened CaptureNode
  import opened CaptureIndex
  import opened CaptureAudit
  import opened CaptureLog

  datatype Manifest = Absent | Running | Complete | CompleteWithFailures

  /** What survives a process: whether the output directory is there, the index, the manifest status and the session ids ever used. */
  datatype Disk = Disk(there: bool, index: Option<seq<Row>>, manifest: Manifest, sessions: set<string>)

  /** Before the first start; somebody else may have made the output directory. */
  function FirstDisk(there: bool): Disk { Disk(there, None, Absent, {}) }

  /**
   Kills outside the batch loop: with the output directory made but no manifest yet, before
   the session was noted, and after the last batch but before the final manifest.
   */
  datatype Death = Spared | BeforeManifest | BeforeSession | BeforeFinalManifest

  /** Node and retry settings, fixed for the whole capture. */
  datatype Settings = Settings(settleNs: int, minNewRgb: nat, bufferSize: nat, maxAttempts: nat)

  /** What happens around one batch: one surrounding per attempt, and the rows written before a kill. */
  datatype BatchScript = BatchScript(attempts: seq<Surroundings>, rowsWritten: nat)

  /** One start of the program; scripts that end before the plan are a kill. */
  datatype Launch = Launch(
    resume: bool, session: string, death: Death, warmup: seq<WarmUp>, scripts: seq<BatchScript>)

  /** How a start of the program ends; only Refused and Finished are orderly. */
  datatype Ending = Refused | NotReady | ClockRewound | Killed | Finished

  predicate ScriptFor(s: BatchScript, cameras: nat) {
    forall i :: 0 <= i < |s.attempts| ==> EventsOf(s.attempts[i], cameras)
  }

  predicate LaunchFor(l: Launch, cameras: nat) {
    && l.session != "" && (forall i :: 0 <= i < |l.scripts| ==> ScriptFor(l.scripts[i], cameras))
    && forall i :: 0 <= i < |l.warmup| && l.warmup[i].event.Rgb? ==> l.warmup[i].event.camera < cameras
  }

  /** From time t on the clock never falls back in any attempt of the scripts. */
  ghost predicate SteadyScripts(t: int, scripts: seq<BatchScript>)
    decreases |scripts|
  {
    scripts == [] ||
    (SteadyCalls(t, scripts[0].attempts) && SteadyScripts(LatestInCalls(t, scripts[0].attempts), scripts[1..]))
  }

  lemma {:induction false} EarlierScriptsAreSteady(t: int, later: int, scripts: seq<BatchScript>)
    requires t <= later && SteadyScripts(later, scripts)
    ensures SteadyScripts(t, scripts)
    decreases |scripts|
  {
    hide SteadyCalls, LatestInCalls;
    if scripts != [] {
      EarlierCallsAreSteady(t, later, scripts[0].attempts);
      EarlierScriptsAreSteady(
        LatestInCalls(t, scripts[0].attempts), LatestInCalls(later, scripts[0].attempts), scripts[1..]);
    }
  }

  /**
   Nothing goes wrong with the launch: it is not killed, its node gets ready, there is time
   for every attempt at every missing batch, and its clock never falls back.
   */
  ghost predicate Smooth(launch: Launch, plan: Plan, settings: Settings, written: nat) {
    && launch.death.Spared? && GetsReady(launch.warmup, plan.cameras)
    && |launch.scripts| >= plan.Batches() - written
    && (forall i :: 0 <= i < |launch.scripts| ==> Ample(launch.scripts[i], settings.maxAttempts, plan.cameras))
    && Steady(0, EventsIn(launch.warmup)) && SteadyScripts(Latest(0, EventsIn(launch.warmup)), launch.scripts)
  }

  /** The outcome of all attempts at one batch. */
  datatype Attempted = Frames(frames: seq<Pair>, context: Context) | GaveUp | Stopped

  function FailedRow(plan: Plan, pose: nat, repetition: nat, session: string, camera: nat): Row
    requires pose < |plan.poses|
  {
    Row(pose, repetition, BatchId(pose, repetition), session, camera, Status.Failed, NoImage,
        0, 0, 0, 0, 0.0, 0.0, plan.poses[pose])
  }

  function OkRow(plan: Plan, pose: nat, repetition: nat, session: string, camera: nat,
                 frames: seq<Pair>, context: Context): Row
    requires pose < |plan.poses| && camera < |frames|
  {
    Row(pose, repetition, BatchId(pose, repetition), session, camera, Status.Ok,
        ImageId(session, camera, frames[camera].stamp), frames[camera].stamp,
        context.issue, context.ack, context.barrier,
        Seconds(frames[camera].stamp), Seconds(Span(frames)), plan.poses[pose])
  }

  /** The rows of one batch, in camera order. */
  function BatchRows(plan: Plan, pose: nat, repetition: nat, session: string, result: Attempted): seq<Row>
    requires pose < |plan.poses| && (result.Frames? ==> |result.frames| == plan.cameras)
  {
    seq(plan.cameras, c requires 0 <= c < plan.cameras =>
      if result.Frames? then OkRow(plan, pose, repetition, session, c, result.frames, result.context)
      else FailedRow(plan, pose, repetition, session, c))
  }

  /** A successful batch of the session. */
  ghost predicate OkOfSession(batch: seq<Row>, session: string) {
    IsOk(batch) && batch[0].session == session
  }

  /** No successful row of the session is newer than what its node has consumed. */
  ghost predicate Consumed(log: Log, session: string, consumed: seq<int>) {
    forall b, c {:trigger log[b][c]} :: 0 <= b < |log| && OkOfSession(log[b], session) && 0 <= c < |log[b]| && c < |consumed| ==>
      log[b][c].stamp <= consumed[c]
  }

  /** The result of the attempts at one batch is one the node can deliver after `consumed`. */
  ghost predicate Deliverable(result: Attempted, plan: Plan, settle: int, consumed: seq<int>) {
    result.Frames? ==>
      && |result.frames| == plan.cameras == |consumed| && plan.cameras > 0
      && DeliveryFits(result.frames, result.context, settle, plan.slopNs)
      && forall c :: 0 <= c < plan.cameras ==> consumed[c] < result.frames[c].stamp
  }

  ghost predicate DeliveryFits(frames: seq<Pair>, context: Context, settle: int, slop: int)
    requires |frames| > 0
  {
    && Span(frames) <= slop && 0 < context.issue <= context.ack && context.barrier == context.ack + settle
    && forall c {:trigger frames[c]} :: 0 <= c < |frames| ==> context.barrier < frames[c].stamp
  }

  lemma RowsAreAWriterBatch(plan: Plan, b: nat, session: string, result: Attempted, settle: int, consumed: seq<int>)
    requires plan.Valid() && b / plan.repeats < |plan.poses| && session != "" && Deliverable(result, plan, settle, consumed)
    ensures WriterBatch(BatchRows(plan, b / plan.repeats, b % plan.repeats, session, result), plan, b, settle)
  {
    var rows := BatchRows(plan, b / plan.repeats, b % plan.repeats, session, result);
    forall c {:trigger rows[c]} | 0 <= c < |rows|
      ensures RowInPlace(rows[c], plan, b, c)
    {
    }
    if result.Frames? {
      hide Span;
      assert |StampPairs(rows)| == |result.frames|;
      SameStampsSameKey(StampPairs(rows), result.frames);
      assert Span(StampPairs(rows)) == Span(result.frames) by { SpanOfSameKey(StampPairs(rows), result.frames); }
      forall c {:trigger rows[c]} | 0 <= c < |rows|
        ensures OkRowOf(rows[c], rows[0], Span(StampPairs(rows)), settle)
      {
        assert result.frames[c] == result.frames[c];
      }
    }
  }

  lemma SpanOfSameKey(b: seq<Pair>, c: seq<Pair>)
    requires |b| > 0 && |c| > 0 && MinStamp(b) == MinStamp(c) && MaxStamp(b) == MaxStamp(c)
    ensures Span(b) == Span(c)
  {
  }

  /** Writing one more batch of the running session keeps the log well written. */
  lemma LogExtends(log: Log, plan: Plan, settle: int, session: string, result: Attempted, consumed: seq<int>, consumed': seq<int>)
    requires plan.Valid() && Written(log, plan, settle) && |log| < plan.Batches() && session != ""
    requires |log| / plan.repeats < |plan.poses| && |consumed| == |consumed'| == plan.cameras
    requires Deliverable(result, plan, settle, consumed) && Consumed(log, session, consumed)
    requires if result.Frames? then consumed' == StampsOf(result.frames) else consumed' == consumed
    ensures var batch := BatchRows(plan, |log| / plan.repeats, |log| % plan.repeats, session, result);
            Written(log + [batch], plan, settle) && Consumed(log + [batch], session, consumed')
  {
    hide WriterBatch;
    var batch := BatchRows(plan, |log| / plan.repeats, |log| % plan.repeats, session, result);
    var more := log + [batch];
    RowsAreAWriterBatch(plan, |log|, session, result, settle, consumed);
    forall b {:trigger more[b]} | 0 <= b < |more|
      ensures WriterBatch(more[b], plan, b, settle)
    {
      assert b < |log| ==> more[b] == log[b];
    }
    forall a | 0 <= a < |log|
      ensures InSequence(log[a], batch)
    {
      BatchLengths(log, plan, settle, a);
      if IsOk(log[a]) && IsOk(batch) && log[a][0].session == batch[0].session {
        forall c {:trigger log[a][c]} | 0 <= c < |log[a]|
          ensures log[a][c].stamp < batch[c].stamp
        {
        }
      }
    }
    forall a, b {:trigger InSequence(more[a], more[b])} | 0 <= a < b < |more|
      ensures InSequence(more[a], more[b])
    {
      if b < |log| {
        assert InSequence(log[a], log[b]);
      }
    }
    forall b, c {:trigger more[b][c]} | 0 <= b < |more| && OkOfSession(more[b], session) && 0 <= c < |more[b]| && c < |consumed'|
      ensures more[b][c].stamp <= consumed'[c]
    {
      if b < |log| {
        assert more[b] == log[b];
        assert log[b][c].stamp <= consumed[c];
      }
    }
  }

  lemma BatchLengths(log: Log, plan: Plan, settle: int, a: nat)
    requires plan.Valid() && Written(log, plan, settle) && a < |log|
    ensures |log[a]| == plan.cameras
  {
    assert WriterBatch(log[a], plan, a, settle);
  }

  // ---------------------------------------------------------------- what the rows tell of the attempts

  /** The attempts at one batch: ended by the first that captured, or used up. */
  ghost predicate Tried(outcomes: seq<Outcome>, maxAttempts: nat) {
    var n := |outcomes| - 1;
    && 0 <= n < Max(maxAttempts, 1) && (forall k :: 0 <= k < n ==> outcomes[k].Failed?)
    && (outcomes[n].Captured? || (outcomes[n].Failed? && n + 1 == Max(maxAttempts, 1)))
  }

  /** The batch succeeded exactly if an attempt captured one, and its rows are that capture's, camera by camera. */
  ghost predicate RowsTell(batch: seq<Row>, outcomes: seq<Outcome>) {
    && (IsOk(batch) <==> exists k :: 0 <= k < |outcomes| && outcomes[k].Captured?)
    && (forall k :: 0 <= k < |outcomes| && outcomes[k].Captured? ==> RowsOfCapture(batch, outcomes[k].frames, outcomes[k].context))
    && (!IsOk(batch) ==> forall c :: 0 <= c < |batch| ==>
          && batch[c].status.Failed? && batch[c].image.NoImage?
          && batch[c].stamp == batch[c].issue == batch[c].ack == batch[c].barrier == 0)
  }

  ghost predicate RowsOfCapture(batch: seq<Row>, frames: seq<Pair>, context: Context) {
    && |batch| == |frames|
    && forall c :: 0 <= c < |batch| ==>
         && batch[c].status.Ok? && batch[c].stamp == frames[c].stamp
         && batch[c].issue == context.issue && batch[c].ack == context.ack && batch[c].barrier == context.barrier
  }

  lemma BatchRowsTell(plan: Plan, pose: nat, repetition: nat, session: string, result: Attempted, outcomes: seq<Outcome>, maxAttempts: nat)
    requires plan.Valid() && pose < |plan.poses| && (result.Frames? ==> |result.frames| == plan.cameras)
    requires Tried(outcomes, maxAttempts) && GivenBy(result, outcomes)
    ensures RowsTell(BatchRows(plan, pose, repetition, session, result), outcomes)
  {
    hide Span;
    var batch, n := BatchRows(plan, pose, repetition, session, result), |outcomes| - 1;
    forall k | 0 <= k < |outcomes| && outcomes[k].Captured?
      ensures k == n
    {
    }
  }

  /** The result of the attempts is that of the last one. */
  ghost predicate GivenBy(result: Attempted, outcomes: seq<Outcome>) {
    && outcomes != []
    && match result
       case Frames(frames, context) => outcomes[|outcomes| - 1] == Captured(frames, context)
       case GaveUp => outcomes[|outcomes| - 1].Failed?
       case Stopped => false
  }

  /** What the attempts at batch after batch gave, from where the node stood at first. */
  ghost predicate SessionGives(
    t: Tuning, s: Stand, scripts: seq<BatchScript>, maxAttempts: nat, tries: seq<seq<Outcome>>, s': Stand)
    decreases |tries|
  {
    && |tries| <= |scripts|
    && if tries == [] then s' == s
       else
         var n := |tries| - 1;
         exists mid: Stand ::
           && SessionGives(t, s, scripts, maxAttempts, tries[..n], mid)
           && Tried(tries[n], maxAttempts) && CallsGive(t, mid, scripts[n].attempts, tries[n], s')
  }

  /** The batches added to the log are those of the attempts. */
  ghost predicate LogTells(log: Log, log': Log, tries: seq<seq<Outcome>>) {
    && |log'| == |log| + |tries|
    && forall i :: 0 <= i < |tries| ==> RowsTell(log'[|log| + i], tries[i])
  }

  /** All that a session added to the log is what its node captured, as the events that reached it decided. */
  ghost predicate SessionTells(t: Tuning, s: Stand, scripts: seq<BatchScript>, maxAttempts: nat, log: Log, log': Log) {
    exists tries: seq<seq<Outcome>>, s': Stand ::
      SessionGives(t, s, scripts, maxAttempts, tries, s') && LogTells(log, log', tries)
  }

  lemma NothingToTell(t: Tuning, s: Stand, scripts: seq<BatchScript>, maxAttempts: nat, log: Log)
    ensures SessionGives(t, s, scripts, maxAttempts, [], s) && LogTells(log, log, [])
  {
  }

  lemma OneMoreBatch(
    t: Tuning, s: Stand, scripts: seq<BatchScript>, maxAttempts: nat, tries: seq<seq<Outcome>>, mid: Stand,
    outcomes: seq<Outcome>, s': Stand, log: Log, before: Log, after: Log, session: string)
    requires SessionGives(t, s, scripts, maxAttempts, tries, mid) && |tries| < |scripts|
    requires Tried(outcomes, maxAttempts) && CallsGive(t, mid, scripts[|tries|].attempts, outcomes, s')
    requires LogTells(log, before, tries) && Adds(before, after, session) && RowsTell(after[|before|], outcomes)
    ensures SessionGives(t, s, scripts, maxAttempts, tries + [outcomes], s') && LogTells(log, after, tries + [outcomes])
  {
    hide Tried, CallsGive, RowsTell;
    var more := tries + [outcomes];
    assert more[..|tries|] == tries;
    forall i | 0 <= i < |more|
      ensures RowsTell(after[|log| + i], more[i])
    {
      if i < |tries| {
        assert after[..|before|][|log| + i] == before[|log| + i];
      }
    }
  }

  // ---------------------------------------------------------------- one process

  /** Tries one batch up to the allowed number of times. */
  method TryBatch(node: FiveCameraCapture, script: BatchScript, maxAttempts: nat, plan: Plan)
    returns (result: Attempted, ghost outcomes: seq<Outcome>)
    requires node.Valid() && ScriptFor(script, node.cameras) && node.cameras == plan.cameras > 0 && node.slopNs == plan.slopNs
    modifies node
    ensures node.Valid() && Deliverable(result, plan, node.settleNs, old(node.lastConsumed))
    ensures node.lastConsumed == if result.Frames? then StampsOf(result.frames) else old(node.lastConsumed)
    ensures !result.Stopped? ==>
              && Tried(outcomes, maxAttempts) && GivenBy(result, outcomes)
              && CallsGive(node.Tuned(), old(node.Between()), script.attempts, outcomes, node.Between())
    ensures result.GaveUp? ==> node.calls == old(node.calls) + Max(maxAttempts, 1)
    ensures result.Frames? ==> old(node.calls) < node.calls <= old(node.calls) + Max(maxAttempts, 1)
    ensures result.Stopped? ==> |script.attempts| < Max(maxAttempts, 1) || node.now < node.lastClockNs
    ensures old(node.now >= node.lastClockNs) && SteadyCalls(old(node.now), script.attempts) ==>
              node.lastClockNs <= node.now <= LatestInCalls(old(node.now), script.attempts)
  {
    hide Span, SteadyCall, LatestInCall, CallGives, CallsGive, WaitedForEnough, EventsOf, SteadyCalls, LatestInCalls;
    hide FiveCameraCapture.Valid;
    outcomes := [];
    NoCalls(node.Tuned(), node.Between(), script.attempts);
    ghost var began, steady := node.now, node.now >= node.lastClockNs && SteadyCalls(node.now, script.attempts);
    if steady {
      CallsMoveOn(began, script.attempts);
    }
    assert script.attempts[0..] == script.attempts;
    var attempt: nat := 0;
    while attempt < Max(maxAttempts, 1)
      invariant attempt <= |script.attempts|
      invariant steady ==> node.now >= node.lastClockNs && StillSteady(node.now, script.attempts, attempt, began)
      invariant node.Valid() && node.lastConsumed == old(node.lastConsumed)
      invariant node.calls == old(node.calls) + attempt && attempt <= Max(maxAttempts, 1)
      invariant |outcomes| == attempt && forall k :: 0 <= k < attempt ==> outcomes[k].Failed?
      invariant CallsGive(node.Tuned(), old(node.Between()), script.attempts, outcomes, node.Between())
    {
      if attempt >= |script.attempts| {
        return Stopped, outcomes;
      }
      ghost var earlier, mid := node.now, node.Between();
      var outcome := NextCall(node, script.attempts[attempt]);
      if steady {
        NextCallIsSteady(earlier, node.now, script.attempts, attempt, began);
      }
      if outcome.EpochAborted? {
        return Stopped, outcomes;
      }
      OneMoreCall(node.Tuned(), old(node.Between()), script.attempts, outcomes, mid, outcome, node.Between());
      outcomes := outcomes + [outcome];
      if outcome.Captured? {
        LastDeliveryFits(node, outcome.frames, outcome.context);
        return Frames(outcome.frames, outcome.context), outcomes;
      }
      attempt := attempt + 1;
    }
    return GaveUp, outcomes;
  }

  /** The calls from `attempt` on are steady from t, and end no later than the whole list does from `began`. */
  ghost predicate StillSteady(t: int, calls: seq<Surroundings>, attempt: nat, began: int)
    requires attempt <= |calls|
  {
    SteadyCalls(t, calls[attempt..]) && t <= LatestInCalls(t, calls[attempt..]) <= LatestInCalls(began, calls)
  }

  lemma NextCallIsSteady(t: int, now: int, calls: seq<Surroundings>, attempt: nat, began: int)
    requires attempt < |calls| && StillSteady(t, calls, attempt, began)
    requires SteadyCall(t, calls[attempt]) ==> now <= LatestInCall(t, calls[attempt])
    ensures StillSteady(now, calls, attempt + 1, began) && SteadyCall(t, calls[attempt])
  {
    hide SteadyCall, LatestInCall;
    assert calls[attempt..][0] == calls[attempt] && calls[attempt..][1..] == calls[attempt + 1..];
    EarlierCallsAreSteady(now, LatestInCall(t, calls[attempt]), calls[attempt + 1..]);
    CallsMoveOn(now, calls[attempt + 1..]);
  }

  lemma LastDeliveryFits(node: FiveCameraCapture, frames: seq<Pair>, context: Context)
    requires node.Valid() && node.cameras > 0 && |node.history| > 0
    requires node.history[|node.history| - 1] == Delivery(frames, context, node.lastClockNs)
    ensures |frames| == node.cameras && DeliveryFits(frames, context, node.settleNs, node.slopNs)
  {
    hide Span, BufferOk;
    var d := node.history[|node.history| - 1];
    assert DeliveryOk(d, node.cameras, node.settleNs, node.slopNs);
  }

  /** Hands the rows to the index writer one by one; a kill may come after `upTo` of them. */
  method WriteBatch(writer: CaptureIndexWriter, rows: seq<Row>, upTo: nat) returns (committed: bool)
    requires writer.Valid() && writer.pending == [] && |rows| == writer.cameraCount
    modifies writer
    ensures committed ==> writer.Valid() && writer.pending == [] && writer.file == old(writer.file) + rows
    ensures !committed ==> writer.file == old(writer.file)
    ensures committed <==> upTo >= |rows|
  {
    for i := 0 to |rows|
      invariant writer.Valid() && i <= upTo
      invariant i < |rows| ==> writer.file == old(writer.file) && writer.pending == rows[..i]
      invariant i == |rows| ==> writer.file == old(writer.file) + rows && writer.pending == []
    {
      if i == upTo {
        return false;
      }
      writer.WriteRow(rows[i]);
      assert rows[..i] + [rows[i]] == rows[..i + 1];
      assert rows[..|rows|] == rows;
    }
    var complete := writer.Flush();
    return complete;
  }

  /** What holds between two batches of a session. */
  ghost predicate InProgress(log: Log, plan: Plan, settle: int, session: string, file: seq<Row>, consumed: seq<int>, failures: nat)
    requires plan.Valid()
  {
    && Written(log, plan, settle) && Consumed(log, session, consumed) && file == Flatten(log)
    && (failures == 0 <==> forall b :: 0 <= b < |log| ==> IsOk(log[b]))
  }

  lemma ProgressMade(log: Log, plan: Plan, settle: int, session: string, file: seq<Row>, consumed: seq<int>, failures: nat)
    requires plan.Valid() && InProgress(log, plan, settle, session, file, consumed, failures)
    ensures Written(log, plan, settle) && file == Flatten(log)
    ensures failures == 0 <==> forall b :: 0 <= b < |log| ==> IsOk(log[b])
  {
    hide Written, Consumed;
  }

  /** One more batch, written by `session`. */
  ghost predicate Adds(log: Log, more: Log, session: string) {
    |more| == |log| + 1 && more[..|log|] == log && |more[|log|]| > 0 && more[|log|][0].session == session
  }

  /** Time for every attempt, and no kill before the last row. */
  predicate Ample(script: BatchScript, maxAttempts: nat, cameras: nat) {
    |script.attempts| >= Max(maxAttempts, 1) && script.rowsWritten >= cameras
  }

  /** Captures and writes the batch after the log; true when it was committed. */
  method CaptureBatch(node: FiveCameraCapture, writer: CaptureIndexWriter, plan: Plan, maxAttempts: nat, session: string,
                      pose: nat, repetition: nat, script: BatchScript, failures: nat, ghost log: Log)
    returns (committed: bool, failures': nat, ghost log': Log, ghost outcomes: seq<Outcome>)
    requires plan.Valid() && node.Valid() && ScriptFor(script, node.cameras) && session != ""
    requires node.cameras == plan.cameras == writer.cameraCount && node.slopNs == plan.slopNs
    requires writer.Valid() && writer.pending == []
    requires |log| < plan.Batches() && pose < |plan.poses| && pose == |log| / plan.repeats && repetition == |log| % plan.repeats
    requires InProgress(log, plan, node.settleNs, session, writer.file, node.lastConsumed, failures)
    modifies node, writer
    ensures node.Valid() && writer.file == Flatten(log') && Written(log', plan, node.settleNs)
    ensures committed ==> Adds(log, log', session) && writer.Valid() && writer.pending == []
    ensures committed ==> InProgress(log', plan, node.settleNs, session, writer.file, node.lastConsumed, failures')
    ensures committed ==>
              && Tried(outcomes, maxAttempts) && RowsTell(log'[|log|], outcomes)
              && CallsGive(node.Tuned(), old(node.Between()), script.attempts, outcomes, node.Between())
    ensures !committed ==> log' == log
    ensures !committed && Ample(script, maxAttempts, plan.cameras) ==> node.now < node.lastClockNs
    ensures old(node.now >= node.lastClockNs) && SteadyCalls(old(node.now), script.attempts) ==>
              node.lastClockNs <= node.now <= LatestInCalls(old(node.now), script.attempts)
  {
    hide Written, Consumed, SteadyCalls, LatestInCalls, Tried, CallsGive, RowsTell, GivenBy;
    failures', log' := failures, log;
    ghost var consumed := node.lastConsumed;
    var result;
    result, outcomes := TryBatch(node, script, maxAttempts, plan);
    if result.Stopped? {
      return false, failures', log', outcomes;
    }
    if result.GaveUp? {
      failures' := failures + 1;
    }
    var rows := BatchRows(plan, pose, repetition, session, result);
    committed := WriteBatch(writer, rows, script.rowsWritten);
    if committed {
      LogExtends(log, plan, node.settleNs, session, result, consumed, node.lastConsumed);
      BatchRowsTell(plan, pose, repetition, session, result, outcomes, maxAttempts);
      log' := log + [rows];
      assert log'[..|log|] == log;
    }
  }

  /** Every batch was written by a session the manifest knows. */
  ghost predicate SessionsKnown(log: Log, sessions: set<string>) {
    forall b :: 0 <= b < |log| ==> |log[b]| > 0 && log[b][0].session in sessions
  }

  lemma AddsKnown(log: Log, more: Log, session: string, sessions: set<string>)
    requires Adds(log, more, session) && SessionsKnown(log, sessions) && session in sessions
    ensures SessionsKnown(more, sessions)
  {
    forall b | 0 <= b < |more|
      ensures |more[b]| > 0 && more[b][0].session in sessions
    {
      if b < |log| {
        assert more[b] == more[..|log|][b];
      }
    }
  }

  /** Extends `log` without touching what was there. */
  ghost predicate Continues(log: Log, more: Log) {
    |log| <= |more| && more[..|log|] == log
  }

  lemma ContinuesOn(a: Log, b: Log, c: Log, session: string)
    requires Continues(a, b) && Adds(b, c, session)
    ensures Continues(a, c)
  {
    assert c[..|a|] == c[..|b|][..|a|];
  }

  /**
   Walks the plan, skips what is already in the index and captures the rest; stops early
   when the scripts end or a batch is not committed.
   */
  method RunSession(node: FiveCameraCapture, writer: CaptureIndexWriter, plan: Plan, maxAttempts: nat, session: string,
                    start: nat, scripts: seq<BatchScript>, failures: nat, ghost sessions: set<string>, ghost log: Log)
    returns (finished: bool, failures': nat, ghost log': Log)
    requires plan.Valid() && node.Valid() && session != "" && session in sessions
    requires forall i :: 0 <= i < |scripts| ==> ScriptFor(scripts[i], node.cameras)
    requires node.cameras == plan.cameras == writer.cameraCount && node.slopNs == plan.slopNs
    requires writer.Valid() && writer.pending == [] && start == |log| <= plan.Batches()
    requires InProgress(log, plan, node.settleNs, session, writer.file, node.lastConsumed, failures)
    requires SessionsKnown(log, sessions)
    modifies node, writer
    ensures writer.file == Flatten(log') && Written(log', plan, node.settleNs) && Continues(log, log')
    ensures SessionsKnown(log', sessions)
    ensures SessionTells(node.Tuned(), old(node.Between()), scripts, maxAttempts, log, log')
    ensures finished ==> |log'| == plan.Batches() && (failures' == 0 <==> forall b :: 0 <= b < |log'| ==> IsOk(log'[b]))
    ensures !finished ==> |log'| < plan.Batches()
    ensures (forall i :: 0 <= i < |scripts| ==> Ample(scripts[i], maxAttempts, plan.cameras)) && !finished ==>
              node.now < node.lastClockNs || |log'| == start + |scripts|
    ensures old(node.now >= node.lastClockNs) && SteadyScripts(old(node.now), scripts) ==> node.now >= node.lastClockNs
  {
    hide Written, Consumed, SessionsKnown, Continues, SteadyCalls, LatestInCalls;
    hide Tried, CallsGive, RowsTell, SessionSoFar, SessionTells, InProgress, SteadyScripts;
    hide FiveCameraCapture.Valid;
    ghost var steady := node.now >= node.lastClockNs && SteadyScripts(node.now, scripts);
    ghost var tries: seq<seq<Outcome>>, first, here := [], node.Between(), node.Between();
    SessionBegins(node.Tuned(), first, scripts, maxAttempts, sessions, log);
    assert scripts[0..] == scripts;
    failures', log' := failures, log;
    var b: nat, used: nat := 0, 0;
    for pose := 0 to |plan.poses|
      invariant node.Valid() && writer.Valid() && writer.pending == []
      invariant b == pose * plan.repeats && |log'| == Max(start, b) == start + used && used <= |scripts|
      invariant InProgress(log', plan, node.settleNs, session, writer.file, node.lastConsumed, failures')
      invariant steady ==> node.now >= node.lastClockNs && SteadyScripts(node.now, scripts[used..])
      invariant SessionSoFar(node.Tuned(), first, scripts, maxAttempts, tries, here, sessions, log, log')
      invariant here == node.Between() && |tries| == used
    {
      PoseFits(pose, |plan.poses|, plan.repeats);
      for repetition := 0 to plan.repeats
        invariant node.Valid() && writer.Valid() && writer.pending == []
        invariant b == pose * plan.repeats + repetition && |log'| == Max(start, b) == start + used && used <= |scripts|
        invariant InProgress(log', plan, node.settleNs, session, writer.file, node.lastConsumed, failures')
        invariant steady ==> node.now >= node.lastClockNs && SteadyScripts(node.now, scripts[used..])
        invariant SessionSoFar(node.Tuned(), first, scripts, maxAttempts, tries, here, sessions, log, log')
        invariant here == node.Between() && |tries| == used
      {
        if b < start {
          b := b + 1;
          continue;
        }
        if used >= |scripts| {
          SessionEnds(node.Tuned(), first, scripts, maxAttempts, tries, here, sessions, log, log');
          ProgressMade(log', plan, node.settleNs, session, writer.file, node.lastConsumed, failures');
          return false, failures', log';
        }
        BatchPosition(pose, repetition, plan.repeats);
        ghost var before, earlier := log', node.now;
        var committed;
        ghost var outcomes;
        committed, failures', log', outcomes := CaptureBatch(
          node, writer, plan, maxAttempts, session, pose, repetition, scripts[used], failures', log');
        if steady {
          NextScriptIsSteady(earlier, node.now, scripts, used);
        }
        if !committed {
          SessionEnds(node.Tuned(), first, scripts, maxAttempts, tries, here, sessions, log, log');
          return false, failures', log';
        }
        SessionGoesOn(node.Tuned(), first, scripts, maxAttempts, tries, here, sessions, log, before,
                      outcomes, node.Between(), session, log');
        tries, here := tries + [outcomes], node.Between();
        used := used + 1;
        b := b + 1;
      }
    }
    SessionEnds(node.Tuned(), first, scripts, maxAttempts, tries, here, sessions, log, log');
    ProgressMade(log', plan, node.settleNs, session, writer.file, node.lastConsumed, failures');
    finished := true;
  }

  /** What holds between two batches of a session. */
  ghost predicate SessionSoFar(
    t: Tuning, start: Stand, scripts: seq<BatchScript>, maxAttempts: nat, tries: seq<seq<Outcome>>, s: Stand,
    sessions: set<string>, log: Log, log': Log)
  {
    && SessionGives(t, start, scripts, maxAttempts, tries, s) && LogTells(log, log', tries)
    && SessionsKnown(log', sessions) && Continues(log, log')
  }

  lemma SessionBegins(
    t: Tuning, s: Stand, scripts: seq<BatchScript>, maxAttempts: nat, sessions: set<string>, log: Log)
    requires SessionsKnown(log, sessions)
    ensures SessionSoFar(t, s, scripts, maxAttempts, [], s, sessions, log, log)
  {
    hide SessionsKnown;
    NothingToTell(t, s, scripts, maxAttempts, log);
    ContinuesItself(log);
  }

  lemma SessionGoesOn(
    t: Tuning, start: Stand, scripts: seq<BatchScript>, maxAttempts: nat, tries: seq<seq<Outcome>>, mid: Stand,
    sessions: set<string>, log: Log, before: Log, outcomes: seq<Outcome>, s: Stand, session: string, after: Log)
    requires SessionSoFar(t, start, scripts, maxAttempts, tries, mid, sessions, log, before) && |tries| < |scripts|
    requires Tried(outcomes, maxAttempts) && CallsGive(t, mid, scripts[|tries|].attempts, outcomes, s)
    requires Adds(before, after, session) && session in sessions && RowsTell(after[|before|], outcomes)
    ensures SessionSoFar(t, start, scripts, maxAttempts, tries + [outcomes], s, sessions, log, after)
  {
    hide Tried, CallsGive, RowsTell, SessionsKnown, Continues, SessionGives, LogTells;
    OneMoreBatch(t, start, scripts, maxAttempts, tries, mid, outcomes, s, log, before, after, session);
    AddsKnown(before, after, session, sessions);
    ContinuesOn(log, before, after, session);
  }

  lemma SessionEnds(
    t: Tuning, start: Stand, scripts: seq<BatchScript>, maxAttempts: nat, tries: seq<seq<Outcome>>, s: Stand,
    sessions: set<string>, log: Log, log': Log)
    requires SessionSoFar(t, start, scripts, maxAttempts, tries, s, sessions, log, log')
    ensures SessionTells(t, start, scripts, maxAttempts, log, log')
    ensures SessionsKnown(log', sessions) && Continues(log, log')
  {
  }

  lemma NextScriptIsSteady(t: int, now: int, scripts: seq<BatchScript>, used: nat)
    requires used < |scripts| && SteadyScripts(t, scripts[used..])
    requires SteadyCalls(t, scripts[used].attempts) ==> now <= LatestInCalls(t, scripts[used].attempts)
    ensures SteadyCalls(t, scripts[used].attempts) && SteadyScripts(now, scripts[used + 1..])
  {
    hide SteadyCalls, LatestInCalls;
    assert scripts[used..][0] == scripts[used] && scripts[used..][1..] == scripts[used + 1..];
    EarlierScriptsAreSteady(now, LatestInCalls(t, scripts[used].attempts), scripts[used + 1..]);
  }

  lemma ContinuesItself(log: Log)
    ensures Continues(log, log)
  {
    assert log[..|log|] == log;
  }

  lemma PoseFits(pose: nat, poses: nat, repeats: nat)
    requires pose < poses
    ensures (pose + 1) * repeats == pose * repeats + repeats
    ensures pose * repeats + repeats <= poses * repeats
  {
    MultipleOrder(pose, poses, repeats);
  }

  lemma BatchPosition(pose: nat, repetition: nat, repeats: nat)
    requires repetition < repeats
    ensures (pose * repeats + repetition) / repeats == pose && (pose * repeats + repetition) % repeats == repetition
  {
    var b := pose * repeats + repetition;
    var q, x := b / repeats, b % repeats;
    assert q * repeats + x == pose * repeats + repetition;
    if q < pose {
      MultipleAtLeast(pose - q, repeats);
    } else if pose < q {
      MultipleAtLeast(q - pose, repeats);
    }
  }

  /** The number of different batches, by pose and repetition, that have failed rows. */
  function FailedBatches(rows: seq<Row>): nat {
    |set r | r in rows && r.status.Failed? :: KeyOf(r)|
  }

  lemma {:induction false} FlattenContains(log: Log, b: nat, r: Row)
    requires b < |log| && r in log[b]
    ensures r in Flatten(log)
  {
    var n := |log| - 1;
    if b < n {
      FlattenContains(log[..n], b, r);
    }
  }

  /** The failure count taken from the file is 0 exactly when every batch in it succeeded. */
  lemma FailedBatchesOfFile(log: Log, plan: Plan, settle: int)
    requires plan.Valid() && Written(log, plan, settle)
    ensures FailedBatches(Flatten(log)) == 0 <==> forall b :: 0 <= b < |log| ==> IsOk(log[b])
  {
    hide Span, StampPairs, RowInPlace, InSequence;
    var rows := Flatten(log);
    var failed := set r | r in rows && r.status.Failed? :: KeyOf(r);
    if b :| 0 <= b < |log| && !IsOk(log[b]) {
      assert WriterBatch(log[b], plan, b, settle);
      assert log[b][0] == log[b][0];
      FlattenContains(log, b, log[b][0]);
      assert KeyOf(log[b][0]) in failed;
    }
    if k :| k in failed {
      var r :| r in rows && r.status.Failed? && KeyOf(r) == k;
      FlattenMembers(log, r);
      var b :| 0 <= b < |log| && r in log[b];
      var c :| 0 <= c < |log[b]| && log[b][c] == r;
      assert WriterBatch(log[b], plan, b, settle);
    }
    assert |failed| == 0 <==> failed == {};
  }

  /** The persistent state is one that launches can have left behind. */
  ghost predicate DiskOk(disk: Disk, log: Log, plan: Plan, settle: int)
    requires plan.Valid()
  {
    && Written(log, plan, settle) && SessionsKnown(log, disk.sessions)
    && (disk.index.Some? ==> disk.index.value == Flatten(log))
    && (disk.index.None? ==> log == [])
    && (disk.manifest.Absent? ==> disk.index.None?)
    && (!disk.manifest.Absent? ==> disk.there)
    && (Closed(disk.manifest) ==>
          && disk.index.Some? && |log| == plan.Batches()
          && (disk.manifest.Complete? <==> forall b :: 0 <= b < |log| ==> IsOk(log[b])))
  }

  /** The audit will let the index be resumed: exactly when it holds no batch its settle time spoils. */
  ghost predicate Resumable(disk: Disk, log: Log, settle: int) {
    && disk.manifest.Running? && disk.index.Some?
    && (settle >= 0 || forall b :: 0 <= b < |log| ==> !IsOk(log[b]))
  }

  predicate Closed(manifest: Manifest) { manifest.Complete? || manifest.CompleteWithFailures? }

  /** Decides whether this launch may go on, and from which batch. */
  method Open(disk: Disk, plan: Plan, resume: bool, ghost log: Log, ghost settle: int)
    returns (start: Option<nat>, rows: seq<Row>)
    requires plan.Valid() && DiskOk(disk, log, plan, settle)
    ensures resume ==> (start.Some? <==> Resumable(disk, log, settle))
    ensures !resume ==> (start.Some? <==> !disk.there)
    ensures start.Some? ==> start.value == |log| && rows == Flatten(log) && (resume <==> disk.index.Some?)
  {
    hide Written;
    rows := [];
    if !resume {
      return if disk.there then None else Some(0), rows;
    }
    if disk.index.None? {
      return None, rows;
    }
    rows := disk.index.value;
    var report := Audit(rows, plan);
    AuditAcceptsWriter(log, plan, settle);
    if !(report.ready && disk.manifest.Running?) {
      return None, rows;
    }
    return Some(report.nextBatch), rows;
  }

  lemma NothingConsumed(log: Log, sessions: set<string>, session: string, consumed: seq<int>)
    requires SessionsKnown(log, sessions) && session !in sessions
    ensures Consumed(log, session, consumed)
  {
    assert forall b :: 0 <= b < |log| ==> log[b][0].session != session;
  }

  lemma MoreSessionsKnown(log: Log, sessions: set<string>, session: string)
    requires SessionsKnown(log, sessions)
    ensures SessionsKnown(log, sessions + {session})
  {
  }

  lemma WrittenFits(log: Log, plan: Plan, settle: int)
    requires plan.Valid() && Written(log, plan, settle)
    ensures |log| <= plan.Batches()
  {
  }

  /**
   Who is refused, what a refusal leaves alone, and what the manifest says afterwards.  Any
   start, even a refused resume, leaves the output directory behind.
   */
  ghost predicate DiskStepOk(disk: Disk, log: Log, settings: Settings, launch: Launch, disk': Disk, ending: Ending) {
    && disk'.there
    && (ending.Refused? <==> if launch.resume then !Resumable(disk, log, settings.settleNs) else disk.there)
    && (ending.Refused? || (ending.Killed? && launch.death.BeforeManifest?) ==> disk' == disk.(there := true))
    && (ending.NotReady? ==> disk'.index == disk.index)
    && disk.sessions <= disk'.sessions <= disk.sessions + {launch.session}
    && (ending.Finished? ==> Closed(disk'.manifest) && launch.session in disk'.sessions)
    && (ending.NotReady? || ending.ClockRewound? || (ending.Killed? && !launch.death.BeforeManifest?) ==> disk'.manifest.Running?)
  }

  function TuningOf(plan: Plan, settings: Settings): Tuning {
    Tuning(settings.settleNs, plan.slopNs, Max(settings.minNewRgb, 1), Max(settings.bufferSize, 8))
  }

  /** All that the launch added to the log is what a node captured that was started up and called by its events. */
  ghost predicate Told(launch: Launch, plan: Plan, settings: Settings, log: Log, log': Log) {
    exists first: Stand ::
      && Started(launch.warmup, plan.cameras, Max(settings.bufferSize, 8), first)
      && SessionTells(TuningOf(plan, settings), first, launch.scripts, settings.maxAttempts, log, log')
  }

  /** What one start of the program adds to the batches written. */
  ghost predicate StepOk(
    disk: Disk, log: Log, plan: Plan, settings: Settings, launch: Launch, disk': Disk, log': Log, ending: Ending)
    requires plan.Valid()
  {
    && DiskStepOk(disk, log, settings, launch, disk', ending)
    && DiskOk(disk', log', plan, settings.settleNs) && Continues(log, log')
    && (ending.Refused? || ending.NotReady? ==> log' == log)
    && (log' != log ==> Told(launch, plan, settings, log, log'))
    && (ending.Finished? ==> |log'| == plan.Batches() && launch.death.Spared?)
    && (ending.ClockRewound? ==> |log'| < plan.Batches())
    && (ending.Killed? && launch.death.BeforeFinalManifest? ==> |log'| == plan.Batches() || CutShort(log, log', plan, settings, launch))
    && (ending.Killed? && launch.death.Spared? ==> CutShort(log, log', plan, settings, launch))
    && (ending.NotReady? ==> !GetsReady(launch.warmup, plan.cameras))
    && (!ending.Refused? && Smooth(launch, plan, settings, |log|) ==> ending.Finished?)
  }

  /** The batch loop was killed: a script ends too early, or there are too few. */
  ghost predicate CutShort(log: Log, log': Log, plan: Plan, settings: Settings, launch: Launch) {
    && |log'| < plan.Batches()
    && (|| |log'| == |log| + |launch.scripts|
        || exists i :: 0 <= i < |launch.scripts| && !Ample(launch.scripts[i], settings.maxAttempts, plan.cameras))
  }

  /**
   One start of the program.  Whether it is refused, stopped or finishes the plan, the disk
   stays one that can be audited.  A kill needs a reason in the launch.
   */
  method Process(disk: Disk, plan: Plan, settings: Settings, launch: Launch, ghost log: Log)
    returns (disk': Disk, ending: Ending, ghost log': Log)
    requires plan.Valid() && DiskOk(disk, log, plan, settings.settleNs)
    requires LaunchFor(launch, plan.cameras) && launch.session !in disk.sessions
    ensures DiskStepOk(disk, log, settings, launch, disk', ending)
    ensures StepOk(disk, log, plan, settings, launch, disk', log', ending)
  {
    hide Written, Consumed, SessionsKnown, Continues, Resumable, Ample, GetsReady, Steady, Latest, SteadyScripts, Told;
    log' := log;
    ContinuesItself(log);
    WrittenFits(log, plan, settings.settleNs);
    var start, rows := Open(disk, plan, launch.resume, log, settings.settleNs);
    disk' := disk.(there := true);
    if start.None? {
      return disk', Refused, log';
    }
    if launch.death.BeforeManifest? {
      return disk', Killed, log';
    }
    disk' := disk'.(manifest := Running);
    if launch.death.BeforeSession? {
      return disk', Killed, log';
    }
    MoreSessionsKnown(log, disk.sessions, launch.session);
    disk' := disk'.(sessions := disk.sessions + {launch.session});
    disk', ending, log' := Work(disk', plan, settings, launch, start.value, rows, disk.sessions, log);
  }

  /** The part of a start from the node's creation to its end. */
  method Work(
    disk: Disk, plan: Plan, settings: Settings, launch: Launch, start: nat, rows: seq<Row>, ghost earlier: set<string>,
    ghost log: Log)
    returns (disk': Disk, ending: Ending, ghost log': Log)
    requires plan.Valid() && DiskOk(disk, log, plan, settings.settleNs) && disk.manifest.Running?
    requires LaunchFor(launch, plan.cameras) && launch.session in disk.sessions
    requires SessionsKnown(log, earlier) && launch.session !in earlier
    requires start == |log| && rows == Flatten(log) && (disk.index.Some? ==> disk.index.value == rows)
    requires launch.death.Spared? || launch.death.BeforeFinalManifest?
    ensures DiskOk(disk', log', plan, settings.settleNs) && Continues(log, log')
    ensures disk'.sessions == disk.sessions && disk'.there == disk.there
    ensures ending.NotReady? || ending.ClockRewound? || ending.Killed? || ending.Finished?
    ensures ending.NotReady? ==> disk' == disk && log' == log
    ensures log' != log ==> Told(launch, plan, settings, log, log')
    ensures if ending.Finished? then Closed(disk'.manifest) else disk'.manifest.Running?
    ensures ending.Finished? ==> |log'| == plan.Batches() && launch.death.Spared?
    ensures ending.ClockRewound? ==> |log'| < plan.Batches()
    ensures ending.NotReady? ==> !GetsReady(launch.warmup, plan.cameras)
    ensures Smooth(launch, plan, settings, |log|) ==> ending.Finished?
    ensures ending.Killed? ==>
              if |log'| == plan.Batches() then launch.death.BeforeFinalManifest? else CutShort(log, log', plan, settings, launch)
  {
    hide Written, Consumed, SessionsKnown, Continues, Resumable, Ample, Steady, Latest, GetsReady, SteadyScripts;
    hide SessionTells, Started;
    log' := log;
    ContinuesItself(log);
    FailedBatchesOfFile(log, plan, settings.settleNs);
    WrittenFits(log, plan, settings.settleNs);
    var node := new FiveCameraCapture(plan.cameras, settings.settleNs, plan.slopNs, settings.minNewRgb, settings.bufferSize);
    var ready := node.WaitReady(launch.warmup);
    if !ready {
      return disk, NotReady, log';
    }
    var writer := new CaptureIndexWriter(disk.index, rows, plan.cameras);
    NothingConsumed(log, earlier, launch.session, node.lastConsumed);
    if Smooth(launch, plan, settings, |log|) {
      EarlierScriptsAreSteady(node.now, Latest(0, EventsIn(launch.warmup)), launch.scripts);
    }
    var finished, failures;
    finished, failures, log' := RunSession(node, writer, plan, settings.maxAttempts, launch.session, start,
                                           launch.scripts, FailedBatches(rows), disk.sessions, log);
    disk' := disk.(index := Some(writer.file));
    if !finished {
      return disk', if node.now < node.lastClockNs then ClockRewound else Killed, log';
    }
    if launch.death.BeforeFinalManifest? {
      return disk', Killed, log';
    }
    disk' := disk'.(manifest := if failures == 0 then Complete else CompleteWithFailures);
    ending := Finished;
  }

  /** The start for which only the final manifest is missing: it finishes exactly if its node gets ready. */
  lemma FullIndexOnlyNeedsItsManifest(
    disk: Disk, log: Log, plan: Plan, settings: Settings, launch: Launch, disk': Disk, log': Log, ending: Ending)
    requires plan.Valid() && DiskOk(disk, log, plan, settings.settleNs) && |log| == plan.Batches()
    requires disk.manifest.Running? && disk.index.Some? && settings.settleNs >= 0
    requires launch.resume && launch.death.Spared?
    requires StepOk(disk, log, plan, settings, launch, disk', log', ending)
    ensures log' == log && (ending.NotReady? || ending.Finished?)
    ensures GetsReady(launch.warmup, plan.cameras) ==> ending.Finished?
    ensures ending.Finished? ==> (disk'.manifest.Complete? <==> forall b :: 0 <= b < |log| ==> IsOk(log[b]))
  {
    hide Written, SessionsKnown, Ample, GetsReady, Smooth;
    WrittenFits(log', plan, settings.settleNs);
  }

  /** A sequence of starts: each finds the disk as the one before left it. */
  ghost predicate StepsOk(
    disks: seq<Disk>, endings: seq<Ending>, logs: seq<Log>, plan: Plan, settings: Settings, launches: seq<Launch>, n: nat)
    requires plan.Valid() && n <= |launches|
  {
    && |disks| == |logs| == n + 1 && |endings| == n
    && disks[0] == FirstDisk(disks[0].there) && logs[0] == []
    && forall i {:trigger endings[i]} :: 0 <= i < n ==>
         StepOk(disks[i], logs[i], plan, settings, launches[i], disks[i + 1], logs[i + 1], endings[i])
  }

  /**
   A capture over any sequence of launches with fresh session ids.  A plain start is let in
   only as the very first launch, and only if nobody else made the output directory.
   */
  method CaptureCampaign(there: bool, plan: Plan, settings: Settings, launches: seq<Launch>)
    returns (disks: seq<Disk>, endings: seq<Ending>, ghost logs: seq<Log>)
    requires plan.Valid() && forall i :: 0 <= i < |launches| ==> LaunchFor(launches[i], plan.cameras)
    requires forall i, j :: 0 <= i < j < |launches| ==> launches[i].session != launches[j].session
    ensures |disks| == |launches| + 1 && |endings| == |launches| && disks[0] == FirstDisk(there)
    ensures forall i :: 0 <= i < |launches| && !launches[i].resume ==> (endings[i].Refused? <==> i > 0 || there)
    ensures StepsOk(disks, endings, logs, plan, settings, launches, |launches|)
    ensures forall i :: 0 <= i < |disks| ==> DiskOk(disks[i], logs[i], plan, settings.settleNs)
  {
    hide DiskOk, Ample, LaunchFor, Resumable, Continues;
    disks, endings, logs := [FirstDisk(there)], [], [[]];
    NothingWritten(there, plan, settings.settleNs);
    for n := 0 to |launches|
      invariant StepsOk(disks, endings, logs, plan, settings, launches, n)
      invariant forall i :: 0 <= i < |disks| ==> DiskOk(disks[i], logs[i], plan, settings.settleNs)
      invariant disks[0] == FirstDisk(there) && forall i :: 0 < i <= n ==> disks[i].there
      invariant forall i :: 0 <= i < n && !launches[i].resume ==> (endings[i].Refused? <==> i > 0 || there)
      invariant forall s :: s in disks[n].sessions ==> exists j :: 0 <= j < n && launches[j].session == s
    {
      ghost var endings0, disks0, logs0 := endings, disks, logs;
      var disk, ending;
      ghost var log;
      disk, ending, log := Process(disks[n], plan, settings, launches[n], logs[n]);
      disks, endings, logs := disks + [disk], endings + [ending], logs + [log];
      StepsExtend(disks0, endings0, logs0, plan, settings, launches, n, disk, ending, log);
    }
  }

  lemma StepsExtend(
    disks: seq<Disk>, endings: seq<Ending>, logs: seq<Log>, plan: Plan, settings: Settings, launches: seq<Launch>, n: nat,
    disk: Disk, ending: Ending, log: Log)
    requires plan.Valid() && n < |launches| && StepsOk(disks, endings, logs, plan, settings, launches, n)
    requires StepOk(disks[n], logs[n], plan, settings, launches[n], disk, log, ending)
    ensures StepsOk(disks + [disk], endings + [ending], logs + [log], plan, settings, launches, n + 1)
  {
    hide StepOk;
    var more, ends, all := disks + [disk], endings + [ending], logs + [log];
    forall i {:trigger ends[i]} | 0 <= i < n + 1
      ensures StepOk(more[i], all[i], plan, settings, launches[i], more[i + 1], all[i + 1], ends[i])
    {
      if i < n {
        assert ends[i] == endings[i];
      }
    }
  }

  /** Nothing that was written is ever changed or lost by a later start. */
  lemma {:induction false} WrittenBatchesStay(
    disks: seq<Disk>, endings: seq<Ending>, logs: seq<Log>, plan: Plan, settings: Settings, launches: seq<Launch>, n: nat,
    i: nat, j: nat)
    requires plan.Valid() && n <= |launches| && StepsOk(disks, endings, logs, plan, settings, launches, n)
    requires i <= j <= n
    ensures |logs[i]| <= |logs[j]| && logs[j][..|logs[i]|] == logs[i]
    decreases j
  {
    hide DiskStepOk, DiskOk, Resumable, Told, Smooth, CutShort, GetsReady;
    if i < j {
      WrittenBatchesStay(disks, endings, logs, plan, settings, launches, n, i, j - 1);
      assert endings[j - 1] == endings[j - 1];
      assert logs[j][..|logs[i]|] == logs[j][..|logs[j - 1]|][..|logs[i]|];
    } else {
      assert logs[j][..|logs[i]|] == logs[i];
    }
  }

  lemma NothingWritten(there: bool, plan: Plan, settle: int)
    requires plan.Valid()
    ensures DiskOk(FirstDisk(there), [], plan, settle)
  {
  }

  /**
   Whatever the launches did, an index they left behind passes the audit if the settle time
   is not negative, and the resume point is the first batch that is missing.
   */
  lemma ExistingIndexPassesTheAudit(disk: Disk, log: Log, plan: Plan, settle: int)
    requires plan.Valid() && DiskOk(disk, log, plan, settle) && disk.index.Some?
    ensures NextBatch(disk.index.value, plan.repeats) == |log|
    ensures settle >= 0 ==> AuditOk(disk.index.value, plan)
  {
    hide AuditOk;
    AuditAcceptsWriter(log, plan, settle);
  }

  /** Neither kind of start is let in. */
  ghost predicate ShutOut(disk: Disk, log: Log, settle: int) {
    disk.there && !Resumable(disk, log, settle)
  }

  /**
   When neither kind of start is let in: a finished capture, an output directory without a
   manifest, a manifest without an index, or an index a negative settle time has spoiled.
   */
  lemma NoStartIsLetIn(disk: Disk, log: Log, plan: Plan, settle: int)
    requires plan.Valid() && DiskOk(disk, log, plan, settle)
    ensures ShutOut(disk, log, settle) <==>
              || Closed(disk.manifest)
              || (disk.manifest.Absent? && disk.there)
              || (disk.manifest.Running? && disk.index.None?)
              || (disk.manifest.Running? && settle < 0 && exists b :: 0 <= b < |log| && IsOk(log[b]))
  {
    hide Written, SessionsKnown;
  }

  /** From then on every start is refused, and nothing on disk changes any more. */
  lemma {:induction false} ShutOutForGood(
    disks: seq<Disk>, endings: seq<Ending>, logs: seq<Log>, plan: Plan, settings: Settings, launches: seq<Launch>, n: nat,
    i: nat, j: nat)
    requires plan.Valid() && n <= |launches| && StepsOk(disks, endings, logs, plan, settings, launches, n)
    requires i <= j < n && ShutOut(disks[i], logs[i], settings.settleNs)
    ensures endings[j].Refused? && disks[j + 1] == disks[i] && logs[j + 1] == logs[i]
    decreases j
  {
    hide DiskOk, Smooth, CutShort, Resumable;
    if i < j {
      ShutOutForGood(disks, endings, logs, plan, settings, launches, n, i, j - 1);
    }
    assert StepOk(disks[j], logs[j], plan, settings, launches[j], disks[j + 1], logs[j + 1], endings[j]);
  }
}
