/**
 The capture node: a simulation clock that must not run backwards, one frame buffer per
 camera, and the command / settle / wait cycle that delivers one frame per camera.
 What the node receives is given as lists of events, one list per wait; a list that is
 used up is a deadline that has passed.
 */
module CaptureNode {
  import opened Options
  import opened BatchChooser
  import opened CaptureEvents
  import opened CaptureSteps

  /** A delivered batch with its context and the clock at delivery. */
  datatype Delivery = Delivery(frames: seq<Pair>, context: Context, clock: int)

  ghost predicate IncreasingFrames(buffer: seq<Frame>) {
    forall i, j :: 0 <= i < j < |buffer| ==> buffer[i].count < buffer[j].count && buffer[i].stamp < buffer[j].stamp
  }

  /** The buffer of one camera against its counters and the clock readings at which its frames came in. */
  ghost predicate BufferOk(buffer: seq<Frame>, count: nat, lastStamp: int, arrivals: seq<Arrival>, clock: int, spins: nat) {
    && IncreasingFrames(buffer)
    && |arrivals| == count
    && (forall f :: f in buffer ==> 0 < f.count <= count && f.stamp <= lastStamp)
    && (forall k :: 0 <= k < |arrivals| ==> arrivals[k].clock <= clock && arrivals[k].spin <= spins)
  }

  /** A delivery satisfies the timing rule of its context. */
  ghost predicate DeliveryOk(d: Delivery, cameras: nat, settle: int, slop: int) {
    && |d.frames| == cameras > 0 && Span(d.frames) <= slop
    && 0 < d.context.issue <= d.context.ack && d.context.barrier == d.context.ack + settle
    && forall c {:trigger d.frames[c]} :: 0 <= c < cameras ==> d.context.barrier < d.frames[c].stamp <= d.clock
  }

  /** Deliveries follow one another: the clock never falls back and no camera repeats a stamp. */
  ghost predicate Follows(d: Delivery, later: Delivery) {
    && |d.frames| == |later.frames| && d.clock <= later.context.issue
    && forall c {:trigger d.frames[c]} :: 0 <= c < |d.frames| ==> d.frames[c].stamp < later.frames[c].stamp
  }

  ghost predicate HistoryOk(history: seq<Delivery>, consumed: seq<int>, clock: int, settle: int, slop: int) {
    && (forall k {:trigger history[k]} :: 0 <= k < |history| ==>
          DeliveryOk(history[k], |consumed|, settle, slop) && history[k].clock <= clock)
    && (forall k, c :: 0 <= k < |history| && 0 <= c < |consumed| && c < |history[k].frames| ==>
          history[k].frames[c].stamp <= consumed[c])
    && (forall j, k :: 0 <= j < k < |history| ==> Follows(history[j], history[k]))
  }

  lemma HistoryExtends(history: seq<Delivery>, consumed: seq<int>, clock: int, settle: int, slop: int,
                       d: Delivery, consumed': seq<int>)
    requires HistoryOk(history, consumed, clock, settle, slop) && |consumed'| == |consumed|
    requires DeliveryOk(d, |consumed|, settle, slop) && d.clock == clock
    requires forall k :: 0 <= k < |history| ==> history[k].clock <= d.context.issue
    requires forall c :: 0 <= c < |consumed| ==> consumed[c] < d.frames[c].stamp == consumed'[c]
    ensures HistoryOk(history + [d], consumed', clock, settle, slop)
  {
    hide Span;
    var more := history + [d];
    forall j, k | 0 <= j < k < |more|
      ensures Follows(more[j], more[k])
    {
      assert more[j] == history[j];
      assert DeliveryOk(history[j], |consumed|, settle, slop);
      if k < |history| {
        assert more[k] == history[k];
      }
    }
  }

  class FiveCameraCapture {
    const cameras: nat
    const settleNs: int
    const slopNs: int
    const minNewRgb: nat
    const bufferSize: nat
    var now: int                 // the simulation clock as last announced
    var lastClockNs: int
    var barrierNs: int
    var lastConsumed: seq<int>
    var lastRgbStamp: seq<int>
    var rgbCount: seq<nat>
    var rgb: seq<seq<Frame>>
    ghost var arrivals: seq<seq<Arrival>>  // when the frames came in
    ghost var spins: nat                   // spins so far
    ghost var history: seq<Delivery>       // every batch delivered so far
    ghost var calls: nat                   // capture calls so far

    ghost predicate Valid()
      reads this
    {
      && |lastConsumed| == |lastRgbStamp| == |rgbCount| == |rgb| == |arrivals| == cameras && bufferSize >= 8
      && (forall c {:trigger rgb[c]} :: 0 <= c < cameras ==>
            BufferOk(rgb[c], rgbCount[c], lastRgbStamp[c], arrivals[c], lastClockNs, spins))
      && HistoryOk(history, lastConsumed, lastClockNs, settleNs, slopNs)
    }

    ghost function Seen(): Buffers
      reads this
    {
      Buffers(rgb, rgbCount, lastRgbStamp, arrivals)
    }

    ghost function Standing(): Progress
      reads this
    {
      Progress(Seen(), now, spins)
    }

    ghost function Between(): Stand
      reads this
    {
      Stand(Standing(), lastConsumed)
    }

    ghost function Tuned(): Tuning {
      Tuning(settleNs, slopNs, minNewRgb, bufferSize)
    }

    /** Nothing has come in yet. */
    ghost predicate JustMade()
      reads this
    {
      && now == lastClockNs == 0 && Between() == Untouched(cameras)
    }

    constructor (cameras: nat, settleNs: int, slopNs: int, minNewRgb: nat, bufferSize: nat)
      ensures Valid() && history == [] && now == lastClockNs == 0
      ensures JustMade()
      ensures this.cameras == cameras && this.settleNs == settleNs && this.slopNs == slopNs
      ensures this.minNewRgb == Max(minNewRgb, 1) && this.bufferSize == Max(bufferSize, 8)
    {
      this.cameras, this.settleNs, this.slopNs := cameras, settleNs, slopNs;
      this.minNewRgb := if minNewRgb < 1 then 1 else minNewRgb;
      this.bufferSize := if bufferSize < 8 then 8 else bufferSize;
      now, lastClockNs, barrierNs := 0, 0, 0;
      lastConsumed, lastRgbStamp := seq(cameras, i => 0), seq(cameras, i => 0);
      rgbCount, rgb := seq(cameras, i => 0), seq(cameras, i => []);
      arrivals, history, calls, spins := seq(cameras, i => []), [], 0, 0;
    }

    /** A frame arrives; only one newer than all before it of its camera is counted and kept. */
    method RgbCallback(camera: nat, stamp: int, image: int)
      requires Valid() && camera < cameras
      modifies this`lastRgbStamp, this`rgbCount, this`rgb, this`arrivals
      ensures Valid()
      ensures Seen() == Received(old(Seen()), camera, stamp, image, Arrival(lastClockNs, spins), bufferSize)
    {
      if stamp <= lastRgbStamp[camera] {
        return;
      }
      lastRgbStamp := lastRgbStamp[camera := stamp];
      rgbCount := rgbCount[camera := rgbCount[camera] + 1];
      rgb := rgb[camera := Appended(rgb[camera], Frame(rgbCount[camera], stamp, image), bufferSize)];
      arrivals := arrivals[camera := arrivals[camera] + [Arrival(lastClockNs, spins)]];
    }

    /** Reads the clock; a clock that has run backwards ends the capture process. */
    method SimTime() returns (ok: bool)
      requires Valid()
      modifies this`lastClockNs
      ensures Valid()
      ensures ok <==> now >= old(lastClockNs)
      ensures lastClockNs == if ok then now else old(lastClockNs)
    {
      if now < lastClockNs {
        return false;
      }
      lastClockNs := now;
      return true;
    }

    /** Publishes a stop command, lets at most one event in and reads the clock. */
    method Spin(e: Event) returns (ok: bool)
      requires Valid() && (e.Rgb? ==> e.camera < cameras)
      modifies this`now, this`lastClockNs, this`lastRgbStamp, this`rgbCount, this`rgb, this`arrivals, this`spins
      ensures Valid() && lastClockNs >= old(lastClockNs)
      ensures now == if e.Clock? then e.now else old(now)
      ensures ok <==> now >= old(lastClockNs)
      ensures lastClockNs == if ok then now else old(lastClockNs)
      ensures Seen() == AfterEvent(old(Seen()), e, Arrival(old(lastClockNs), spins), bufferSize)
      ensures spins == old(spins) + 1 && Grown(old(arrivals), arrivals, old(lastClockNs), old(spins))
    {
      hide HistoryOk, IncreasingFrames;
      spins := spins + 1;
      match e {
        case Quiet =>
        case Clock(t) => now := t;
        case Rgb(camera, stamp, image) => RgbCallback(camera, stamp, image);
      }
      ok := SimTime();
    }

    /** Lets the listed events in, one per spin, until they are used up or the clock runs backwards. */
    method SpinAll(events: seq<Event>) returns (ok: bool)
      requires Valid() && EventsFor(events, cameras)
      modifies this`now, this`lastClockNs, this`lastRgbStamp, this`rgbCount, this`rgb, this`arrivals, this`spins
      ensures Valid() && lastClockNs >= old(lastClockNs)
      ensures !ok ==> now < lastClockNs
      ensures old(now >= lastClockNs) && Steady(old(now), events) ==>
                ok && lastClockNs <= now == Latest(old(now), events)
      ensures ok && old(now == lastClockNs) ==>
                && now == lastClockNs && spins == old(spins) + |events|
                && TookIn(old(Standing()), events, bufferSize, Standing())
    {
      hide BufferOk, HistoryOk, AfterEvent, TookIn, GrownAt, Steady, Latest;
      NoEvents(now, events);
      TookInNothing(Standing(), events, bufferSize);
      for i := 0 to |events|
        invariant Valid() && lastClockNs >= old(lastClockNs)
        invariant old(now >= lastClockNs) && Steady(old(now), events) ==>
                    lastClockNs <= now == Latest(old(now), events[..i])
        invariant old(now == lastClockNs) ==>
                    && now == lastClockNs && spins == old(spins) + i
                    && TookIn(old(Standing()), events, bufferSize, Standing())
      {
        Reading(old(now), events, i);
        if old(now == lastClockNs) {
          TookInOneMore(old(Standing()), events, bufferSize, Standing());
        }
        ok := Spin(events[i]);
        if !ok {
          return;
        }
      }
      assert events[..|events|] == events;
      return true;
    }

    /** The fresh frames of every camera: delivered after `before`, stamped after barrier and last use, not in the future. */
    function Candidates(before: seq<nat>): (cands: seq<seq<Pair>>)
      requires |lastConsumed| == |rgb| == cameras == |before|
      reads this
      ensures |cands| == cameras
    {
      FreshCandidates(rgb, before, barrierNs, lastConsumed, lastClockNs, minNewRgb)
    }

    lemma CountsMatchArrivals()
      requires Valid()
      ensures forall c :: 0 <= c < cameras ==> |arrivals[c]| == rgbCount[c]
      ensures forall k :: 0 <= k < |history| ==> history[k].clock <= lastClockNs
    {
      forall c | 0 <= c < cameras
        ensures |arrivals[c]| == rgbCount[c]
      {
        assert BufferOk(rgb[c], rgbCount[c], lastRgbStamp[c], arrivals[c], lastClockNs, spins);
      }
    }

    /** Waits for the clock to reach the settle barrier. */
    method Settle(events: seq<Event>) returns (r: Option<Outcome>)
      requires Valid() && EventsFor(events, cameras)
      modifies this`now, this`lastClockNs, this`lastRgbStamp, this`rgbCount, this`rgb, this`arrivals, this`spins
      ensures Valid() && lastClockNs >= old(lastClockNs)
      ensures r.None? ==> lastClockNs >= barrierNs
      ensures r.Some? ==> if r.value.EpochAborted? then now < lastClockNs else r.value.Failed? && lastClockNs < barrierNs
      ensures old(now >= lastClockNs) && Steady(old(now), events) ==>
                r != Some(EpochAborted) && lastClockNs <= now <= Latest(old(now), events)
      ensures r != Some(EpochAborted) && old(now == lastClockNs) ==>
                && now == lastClockNs && (r.Some? ==> spins == old(spins) + |events|)
                && TookIn(old(Standing()), events, bufferSize, Standing())
                && BelowUntil(old(Standing()), events, bufferSize,
                              if r.None? then spins - old(spins) else |events| + 1, barrierNs)
    {
      hide BufferOk, AfterEvent, TookIn, BelowUntil, GrownAt, HistoryOk, Steady, Latest;
      NothingBelow(Standing(), events, bufferSize, barrierNs);
      NoEvents(now, events);
      TookInNothing(Standing(), events, bufferSize);
      var i: nat := 0;
      while true
        invariant Valid() && 0 <= i <= |events| && lastClockNs >= old(lastClockNs)
        invariant old(now >= lastClockNs) && Steady(old(now), events) ==>
                    lastClockNs <= now == Latest(old(now), events[..i]) <= Latest(old(now), events)
        invariant old(now == lastClockNs) ==>
                    && now == lastClockNs && spins == old(spins) + i
                    && TookIn(old(Standing()), events, bufferSize, Standing())
                    && BelowUntil(old(Standing()), events, bufferSize, i, barrierNs)
        decreases |events| - i
      {
        var ok := SimTime();
        if !ok {
          return Some(EpochAborted);
        }
        if lastClockNs >= barrierNs {
          return None;
        }
        if old(now == lastClockNs) {
          BelowOneMore(old(Standing()), events, bufferSize, Standing(), barrierNs);
        }
        if i == |events| {
          return Some(Failed);
        }
        Reading(old(now), events, i);
        if old(now == lastClockNs) {
          TookInOneMore(old(Standing()), events, bufferSize, Standing());
        }
        ok := Spin(events[i]);
        if !ok {
          return Some(EpochAborted);
        }
        i := i + 1;
      }
    }

    /** Tries to choose a batch from the frames that came in since `before`, and consumes it. */
    method Deliver(before: seq<nat>, context: Context, ghost settled: seq<seq<Arrival>>, ghost since: nat) returns (r: Option<seq<Pair>>)
      requires Valid() && |before| == cameras
      requires 0 < context.issue <= context.ack && context.barrier == context.ack + settleNs == barrierNs
      requires forall k :: 0 <= k < |history| ==> history[k].clock <= context.issue
      requires Grown(settled, arrivals, barrierNs, since) && forall c :: 0 <= c < cameras ==> |settled[c]| == before[c]
      modifies this`lastConsumed, this`history
      ensures Valid()
      ensures r.Some? ==>
                && history == old(history) + [Delivery(r.value, context, lastClockNs)]
                && lastConsumed == StampsOf(r.value) && |r.value| == cameras
                && (forall c :: 0 <= c < cameras ==> old(lastConsumed[c]) < r.value[c].stamp)
                && forall c :: 0 <= c < cameras ==> DeliveredAfter(rgb[c], arrivals[c], r.value[c], barrierNs)
      ensures r.None? ==> history == old(history) && lastConsumed == old(lastConsumed)
      ensures ChooserSays(old(Candidates(before)), slopNs, r)
      ensures r.Some? ==> EnoughFresh(rgb, arrivals, barrierNs, old(lastConsumed), lastClockNs, Max(minNewRgb, 1))
    {
      hide Span, Chosen, PairCandidates, IsBatch, BufferOk, HistoryOk, DeliveryOk, GrownAt, DeliveredAfter, EnoughIn;
      ghost var cands := Candidates(before);
      r := ClosestTimestampBatch(Candidates(before), slopNs);
      if r.None? {
        return;
      }
      ReturnedBatchFits(cands, slopNs, r);
      BatchLength(cands, r.value);
      forall c | 0 <= c < cameras
        ensures Max(barrierNs, lastConsumed[c]) < r.value[c].stamp <= lastClockNs
        ensures DeliveredAfter(rgb[c], arrivals[c], r.value[c], barrierNs)
        ensures EnoughIn(rgb[c], arrivals[c], barrierNs, lastConsumed[c], lastClockNs, Max(minNewRgb, 1))
      {
        BatchMember(cands, r.value, c);
        FreshFramesCameIn(rgb[c], rgbCount[c], lastRgbStamp[c], settled[c], arrivals[c], lastClockNs, spins,
                          barrierNs, since, lastConsumed[c], minNewRgb);
        CandidateIsFresh(rgb[c], before[c], Max(barrierNs, lastConsumed[c]), lastClockNs, minNewRgb, r.value[c]);
        ArrivedAfterSettling(rgb[c], rgbCount[c], lastRgbStamp[c], settled[c], arrivals[c], lastClockNs, spins,
                             barrierNs, since, r.value[c]);
      }
      ghost var d := Delivery(r.value, context, lastClockNs);
      FreshDelivery(d, cameras, settleNs, slopNs);
      HistoryExtends(history, lastConsumed, lastClockNs, settleNs, slopNs, d, StampsOf(r.value));
      lastConsumed, history := StampsOf(r.value), history + [d];
    }

    /** Waits for one coherent batch of frames delivered after the settle barrier. */
    method Await(waiting: seq<Event>, before: seq<nat>, context: Context, ghost settled: seq<seq<Arrival>>, ghost since: nat)
      returns (outcome: Outcome)
      requires Valid() && EventsFor(waiting, cameras) && |before| == cameras && lastClockNs >= barrierNs
      requires 0 < context.issue <= context.ack && context.barrier == context.ack + settleNs == barrierNs
      requires forall k :: 0 <= k < |history| ==> history[k].clock <= context.issue
      requires Grown(settled, arrivals, barrierNs, since) && forall c :: 0 <= c < cameras ==> |settled[c]| == before[c]
      requires since <= spins && now == lastClockNs && before == rgbCount
      modifies this`now, this`lastClockNs, this`lastRgbStamp, this`rgbCount, this`rgb, this`arrivals, this`spins
      modifies this`lastConsumed, this`history
      ensures Valid() && lastClockNs >= old(lastClockNs)
      ensures Grown(settled, arrivals, barrierNs, since)
      ensures outcome.Failed? ==> spins == old(spins) + |waiting|
      ensures outcome.Captured? ==>
                && history == old(history) + [Delivery(outcome.frames, context, lastClockNs)] && outcome.context == context
                && lastConsumed == StampsOf(outcome.frames) && |outcome.frames| == cameras
                && (forall c :: 0 <= c < cameras ==> old(lastConsumed[c]) < outcome.frames[c].stamp)
                && forall c :: 0 <= c < cameras ==> DeliveredAfter(rgb[c], arrivals[c], outcome.frames[c], barrierNs)
      ensures !outcome.Captured? ==> history == old(history) && lastConsumed == old(lastConsumed)
      ensures outcome.EpochAborted? ==> now < lastClockNs
      ensures outcome.Captured? ==> spins > old(spins)
      ensures outcome.Captured? ==> EnoughFresh(rgb, arrivals, barrierNs, old(lastConsumed), lastClockNs, Max(minNewRgb, 1))
      ensures !outcome.EpochAborted? ==>
                && now == lastClockNs && TookIn(old(Standing()), waiting, bufferSize, Standing())
                && NothingUntil(old(Standing()), waiting, bufferSize, spins - old(spins), barrierNs, old(lastConsumed), minNewRgb, slopNs)
                && (spins > old(spins) ==>
                      SaysBetween(old(Standing()), Standing(), barrierNs, old(lastConsumed), minNewRgb, slopNs,
                                  if outcome.Captured? then Some(outcome.frames) else None))
      ensures old(now >= lastClockNs) && Steady(old(now), waiting) ==>
                !outcome.EpochAborted? && lastClockNs <= now <= Latest(old(now), waiting)
    {
      hide BufferOk, HistoryOk, DeliveredAfter, GrownAt, ChooserSays, AfterEvent, TookIn, StampsOf, FreshCandidates, Steady, Latest;
      hide EnoughFresh, NothingUntil;
      NothingBefore(Standing(), waiting, bufferSize, barrierNs, lastConsumed, minNewRgb, slopNs);
      NoEvents(now, waiting);
      TookInNothing(Standing(), waiting, bufferSize);
      var i: nat := 0;
      while i < |waiting|
        invariant Valid() && 0 <= i <= |waiting|
        invariant old(now >= lastClockNs) && Steady(old(now), waiting) ==>
                    lastClockNs <= now == Latest(old(now), waiting[..i]) <= Latest(old(now), waiting)
        invariant lastClockNs >= barrierNs == old(barrierNs) && lastClockNs >= old(lastClockNs)
        invariant history == old(history) && lastConsumed == old(lastConsumed)
        invariant Grown(settled, arrivals, barrierNs, since) && spins == old(spins) + i
        invariant now == lastClockNs
        invariant TookIn(old(Standing()), waiting, bufferSize, Standing())
        invariant NothingUntil(old(Standing()), waiting, bufferSize, i, barrierNs, lastConsumed, minNewRgb, slopNs)
        invariant i > 0 ==> SaysBetween(old(Standing()), Standing(), barrierNs, lastConsumed, minNewRgb, slopNs, None)
      {
        NothingOneMore(old(Standing()), waiting, bufferSize, Standing(), barrierNs, lastConsumed, minNewRgb, slopNs);
        TookInOneMore(old(Standing()), waiting, bufferSize, Standing());
        ghost var earlier, clock, spun := arrivals, lastClockNs, spins;
        Reading(old(now), waiting, i);
        var ok := Spin(waiting[i]);
        if !ok {
          GrownOn(settled, earlier, arrivals, barrierNs, clock, since, spun);
          return EpochAborted;
        }
        GrownOn(settled, earlier, arrivals, barrierNs, clock, since, spun);
        var batch := Deliver(before, context, settled, since);
        if batch.Some? {
          return Captured(batch.value, context);
        }
        i := i + 1;
      }
      return Failed;
    }

    /** Commands the pose and waits for the clock to pass the settle barrier; Some if it does not get there. */
    method Command(env: Surroundings) returns (stopped: Option<Outcome>, context: Context)
      requires Valid() && EventsFor(env.posing, cameras) && EventsFor(env.settling, cameras)
      modifies this`now, this`lastClockNs, this`lastRgbStamp, this`rgbCount, this`rgb, this`arrivals, this`spins, this`barrierNs
      ensures Valid() && lastClockNs >= old(lastClockNs)
      ensures stopped.None? ==>
                && 0 < context.issue <= context.ack && context.barrier == context.ack + settleNs == barrierNs <= lastClockNs
                && forall k :: 0 <= k < |history| ==> history[k].clock <= context.issue
      ensures stopped.Some? ==>
                if stopped.value.EpochAborted? then now < lastClockNs
                else stopped.value.Failed? && (old(now) <= 0 || !env.poseAccepted || lastClockNs < barrierNs)
      ensures old(now >= lastClockNs) && SteadyCall(old(now), env) ==>
                && stopped != Some(EpochAborted)
                && lastClockNs <= now <= Latest(Latest(old(now), env.posing), env.settling)
      ensures stopped.None? ==> old(now) > 0 && env.poseAccepted
      ensures stopped != Some(EpochAborted) ==> now == lastClockNs
      ensures stopped.None? ==>
                && context == TimedBy(Tuned(), old(Standing()), After(old(Standing()), env.posing, bufferSize))
                && SettlesAt(old(Standing()), env, bufferSize, barrierNs, Standing())
      ensures stopped == Some(Failed) ==> StopsEarly(Tuned(), old(Standing()), env, Standing())
      ensures stopped != Some(EpochAborted) && old(now) > 0 && env.poseAccepted ==>
                barrierNs == After(old(Standing()), env.posing, bufferSize).clock + settleNs
    {
      hide BufferOk, DeliveryOk, HistoryOk, Steady, Latest, BelowUntil, After;
      ghost var began := now;
      if SteadyCall(began, env) {
        CallMovesOn(began, env);
      }
      context := Context(0, 0, 0);
      var ok := SimTime();
      if !ok {
        return Some(EpochAborted), context;
      }
      var issued := lastClockNs;
      CountsMatchArrivals();
      if issued <= 0 {
        return Some(Failed), context;
      }
      ok := SpinAll(env.posing);
      TookInAll(old(Standing()), env.posing, bufferSize, Standing());
      if !ok {
        return Some(EpochAborted), context;
      }
      if !env.poseAccepted {
        return Some(Failed), context;
      }
      ok := SimTime();
      if !ok {
        return Some(EpochAborted), context;
      }
      context := Context(issued, lastClockNs, lastClockNs + settleNs);
      barrierNs := context.barrier;
      ghost var posed := Standing();
      stopped := Settle(env.settling);
      TookInAll(posed, env.settling, bufferSize, Standing());
    }

    /**
     Commands a pose, waits for the clock to pass the settle barrier, then waits for one
     coherent batch of frames delivered after that.
     */
    method Capture(env: Surroundings) returns (outcome: Outcome)
      requires Valid() && EventsOf(env, cameras)
      modifies this
      ensures Valid() && lastClockNs >= old(lastClockNs) && calls == old(calls) + 1
      ensures outcome.Captured? ==>
                && history == old(history) + [Delivery(outcome.frames, outcome.context, lastClockNs)]
                && lastConsumed == StampsOf(outcome.frames) && |outcome.frames| == cameras
                && (forall c :: 0 <= c < cameras ==> old(lastConsumed[c]) < outcome.frames[c].stamp)
                && forall c :: 0 <= c < cameras ==>
                     DeliveredAfter(rgb[c], arrivals[c], outcome.frames[c], outcome.context.barrier)
      ensures !outcome.Captured? ==> history == old(history) && lastConsumed == old(lastConsumed)
      ensures outcome.EpochAborted? ==> now < lastClockNs
      ensures old(now >= lastClockNs) && SteadyCall(old(now), env) ==>
                !outcome.EpochAborted? && lastClockNs <= now <= LatestInCall(old(now), env)
      ensures !outcome.EpochAborted? ==> CallGives(Tuned(), old(Between()), env, outcome, Between())
      ensures outcome.Captured? ==>
                EnoughFresh(rgb, arrivals, outcome.context.barrier, old(lastConsumed), lastClockNs, Max(minNewRgb, 1))
      ensures outcome.Captured? ==>
                EnoughSent(env.waiting, cameras, outcome.context.barrier, lastClockNs, Max(minNewRgb, 1))
      ensures !outcome.EpochAborted? ==> now == lastClockNs
      ensures !outcome.EpochAborted? && old(now) > 0 && env.poseAccepted ==>
                barrierNs == After(old(Standing()), env.posing, bufferSize).clock + settleNs
    {
      hide BufferOk, DeliveryOk, HistoryOk, GrownAt, DeliveredAfter, ChooserSays, FreshCandidates, Steady, Latest;
      hide TookIn, After, EnoughFresh, EnoughSent, OldFrames, Decided, SettlesAt, NothingUntil, SaysBetween, StopsEarly, CallGives;
      ghost var began, steady := now, now >= lastClockNs && SteadyCall(now, env);
      NoFrameBeyondItsCount();
      calls := calls + 1;
      if steady {
        CallMovesOn(began, env);
      }
      var stopped, context := Command(env);
      if stopped.Some? {
        if stopped == Some(Failed) {
          GivesNothingEarly(Tuned(), old(Between()), env, Between());
        }
        return stopped.value;
      }
      if steady {
        EarlierIsSteady(now, Latest(Latest(began, env.posing), env.settling), env.waiting);
      }
      var before := rgbCount;
      ghost var settled, since, here, consumed := arrivals, spins, Standing(), lastConsumed;
      CountsMatchArrivals();
      NothingNew(arrivals, barrierNs, since);
      outcome := Await(env.waiting, before, context, settled, since);
      if !outcome.EpochAborted? {
        GivesWhatIsChosen(Tuned(), old(Between()), env, context, here, outcome, Between());
      }
      if outcome.Captured? {
        EnoughWereSent(old(Standing()), env, bufferSize, Standing(), barrierNs, consumed, minNewRgb, slopNs, outcome.frames);
      }
    }

    lemma KeepsHistory()
      requires Valid()
      ensures HistoryOk(history, lastConsumed, lastClockNs, settleNs, slopNs) && |lastConsumed| == cameras
    {
    }

    lemma NoFrameBeyondItsCount()
      requires Valid()
      ensures Shaped(Seen(), cameras) && forall c: nat :: c < cameras ==> OldFrames(Seen(), c)
    {
      forall c: nat | c < cameras
        ensures OldFrames(Seen(), c)
      {
        assert BufferOk(rgb[c], rgbCount[c], lastRgbStamp[c], arrivals[c], lastClockNs, spins);
      }
    }

    /**
     Spins until every camera has sent a frame, the pose service is up and the clock runs;
     a fresh node gets there exactly if some spin brings all that before the clock falls back.
     */
    method WaitReady(warmup: seq<WarmUp>) returns (ready: bool)
      requires Valid() && forall i :: 0 <= i < |warmup| && warmup[i].event.Rgb? ==> warmup[i].event.camera < cameras
      requires JustMade()
      modifies this`now, this`lastClockNs, this`lastRgbStamp, this`rgbCount, this`rgb, this`arrivals, this`spins
      ensures Valid() && lastClockNs >= 0
      ensures ready <==> GetsReady(warmup, cameras)
      ensures ready ==> lastClockNs == now > 0 && Started(warmup, cameras, bufferSize, Between())
      ensures Steady(0, EventsIn(warmup)) ==> now <= Latest(0, EventsIn(warmup))
    {
      WarmsFromNothing(warmup, cameras, bufferSize);
      hide BufferOk, HistoryOk, AfterEvent, GrownAt, Steady, Latest, WarmedUp, Untouched, Started, GetsReady;
      for i := 0 to |warmup|
        invariant Valid() && lastClockNs == now
        invariant WarmedUp(warmup, cameras, bufferSize, i, Between())
      {
        ghost var before := Between();
        var ok := Spin(warmup[i].event);
        if !ok {
          NeverWarms(warmup, cameras, bufferSize, i, before);
          return false;
        }
        WarmsOn(warmup, cameras, bufferSize, i, before, Between());
        if warmup[i].service && (forall c :: 0 <= c < cameras ==> rgb[c] != []) && lastClockNs > 0 {
          return true;
        }
      }
      NotReadyInTime(warmup, cameras, bufferSize, Between());
      return false;
    }
  }

  // ---------------------------------------------------------------- the life of a node

  /** One frame per camera, coherent, and every one of them from after the settle barrier and not from the future. */
  ghost predicate FreshBatch(outcome: Outcome, clock: int, cameras: nat, settle: int, slop: int) {
    outcome.Captured? ==>
      var x := outcome.context;
      && |outcome.frames| == cameras > 0 && Span(outcome.frames) <= slop
      && 0 < x.issue <= x.ack && x.barrier == x.ack + settle
      && forall c :: 0 <= c < cameras ==> x.barrier < outcome.frames[c].stamp <= clock
  }

  /** The later batch was commanded after the earlier one was delivered, and repeats no camera's frame. */
  ghost predicate LaterBatch(earlier: Outcome, clock: int, later: Outcome) {
    earlier.Captured? && later.Captured? ==>
      && |earlier.frames| == |later.frames| && clock <= later.context.issue
      && forall c :: 0 <= c < |earlier.frames| ==> earlier.frames[c].stamp < later.frames[c].stamp
  }

  /** A captured batch waited for enough new frames of every camera, sent during its wait. */
  ghost predicate WaitedForEnough(call: Surroundings, outcome: Outcome, clock: int, cameras: nat, minNew: nat) {
    outcome.Captured? ==> EnoughSent(call.waiting, cameras, outcome.context.barrier, clock, minNew)
  }

  /** Where in the node's history the captured outcomes stand. */
  ghost predicate Remembered(outcomes: seq<Outcome>, clocks: seq<int>, places: seq<nat>, history: seq<Delivery>) {
    && |outcomes| == |clocks| == |places|
    && (forall k :: 0 <= k < |outcomes| && outcomes[k].Captured? ==>
          places[k] < |history| && history[places[k]] == Delivery(outcomes[k].frames, outcomes[k].context, clocks[k]))
    && (forall j, k :: 0 <= j < k < |outcomes| && outcomes[j].Captured? && outcomes[k].Captured? ==> places[j] < places[k])
  }

  lemma RemembersOne(
    outcomes: seq<Outcome>, clocks: seq<int>, places: seq<nat>, history: seq<Delivery>,
    outcome: Outcome, clock: int, more: seq<Delivery>)
    requires Remembered(outcomes, clocks, places, history)
    requires more == if outcome.Captured? then history + [Delivery(outcome.frames, outcome.context, clock)] else history
    ensures Remembered(outcomes + [outcome], clocks + [clock], places + [|history|], more)
  {
  }

  /** Every captured batch is fresh and waited for enough frames, and every later one follows it. */
  ghost predicate SeriesKeepsTime(
    calls: seq<Surroundings>, outcomes: seq<Outcome>, clocks: seq<int>, cameras: nat, settle: int, slop: int, minNew: nat)
  {
    && |clocks| == |outcomes| <= |calls|
    && (forall k :: 0 <= k < |outcomes| ==>
          FreshBatch(outcomes[k], clocks[k], cameras, settle, slop)
          && WaitedForEnough(calls[k], outcomes[k], clocks[k], cameras, minNew))
    && forall j, k :: 0 <= j < k < |outcomes| ==> LaterBatch(outcomes[j], clocks[j], outcomes[k])
  }

  /** One frame per camera, each newer than the last one used. */
  ghost predicate UsesNewFrames(frames: seq<Pair>, consumed: seq<int>, cameras: nat) {
    |frames| == cameras == |consumed| && forall c :: 0 <= c < cameras ==> consumed[c] < frames[c].stamp
  }

  /** One of the calls in the life of a node. */
  method NextCall(node: FiveCameraCapture, call: Surroundings) returns (outcome: Outcome)
    requires node.Valid() && EventsOf(call, node.cameras)
    modifies node
    ensures node.Valid()
    ensures node.history == if outcome.Captured? then old(node.history) + [Delivery(outcome.frames, outcome.context, node.lastClockNs)]
                            else old(node.history)
    ensures node.calls == old(node.calls) + 1
    ensures node.lastConsumed == if outcome.Captured? then StampsOf(outcome.frames) else old(node.lastConsumed)
    ensures outcome.Captured? ==> UsesNewFrames(outcome.frames, old(node.lastConsumed), node.cameras)
    ensures outcome.EpochAborted? ==> node.now < node.lastClockNs
    ensures WaitedForEnough(call, outcome, node.lastClockNs, node.cameras, Max(node.minNewRgb, 1))
    ensures old(node.now >= node.lastClockNs) && SteadyCall(old(node.now), call) ==>
              !outcome.EpochAborted? && node.lastClockNs <= node.now <= LatestInCall(old(node.now), call)
    ensures !outcome.EpochAborted? ==> CallGives(node.Tuned(), old(node.Between()), call, outcome, node.Between())
  {
    hide BufferOk, HistoryOk, ChooserSays, DeliveredAfter, SteadyCall, LatestInCall, EventsFor, EnoughSent, EnoughFresh, Decided, After, CallGives;
    outcome := node.Capture(call);
  }

  /** A fresh node, started up and then asked for one batch after another until its clock fails it. */
  method CaptureSeries(
    cameras: nat, settleNs: int, slopNs: int, minNewRgb: nat, bufferSize: nat, warmup: seq<WarmUp>, calls: seq<Surroundings>)
    returns (ready: bool, outcomes: seq<Outcome>, clocks: seq<int>, ghost start: Stand, ghost end: Stand)
    requires forall i :: 0 <= i < |warmup| && warmup[i].event.Rgb? ==> warmup[i].event.camera < cameras
    requires forall i :: 0 <= i < |calls| ==> EventsOf(calls[i], cameras)
    ensures |clocks| == |outcomes| <= |calls|
    ensures ready <==> GetsReady(warmup, cameras)
    ensures ready ==>
              && Started(warmup, cameras, Max(bufferSize, 8), start)
              && SeriesGives(Tuning(settleNs, slopNs, Max(minNewRgb, 1), Max(bufferSize, 8)), start, calls, outcomes, end)
    ensures ready && |outcomes| < |calls| ==> |outcomes| > 0 && outcomes[|outcomes| - 1].EpochAborted?
    ensures ready && Steady(0, EventsIn(warmup)) && SteadyCalls(Latest(0, EventsIn(warmup)), calls) ==>
              |outcomes| == |calls|
    ensures SeriesKeepsTime(calls, outcomes, clocks, cameras, settleNs, slopNs, Max(minNewRgb, 1))
  {
    outcomes, clocks := [], [];
    var node := new FiveCameraCapture(cameras, settleNs, slopNs, minNewRgb, bufferSize);
    start := node.Between();
    end := start;
    ready := node.WaitReady(warmup);
    if !ready {
      return;
    }
    hide BufferOk, HistoryOk, Steady, Latest, GetsReady, SteadyCall, LatestInCall, CallsGive, Started;
    if Steady(0, EventsIn(warmup)) && SteadyCalls(Latest(0, EventsIn(warmup)), calls) {
      EarlierCallsAreSteady(node.now, Latest(0, EventsIn(warmup)), calls);
    }
    start := node.Between();
    outcomes, clocks, end := SeriesFrom(node, calls);
  }

  /** A series of outcomes, the last of which may be that the clock failed. */
  ghost predicate SeriesGives(t: Tuning, s: Stand, calls: seq<Surroundings>, outcomes: seq<Outcome>, s': Stand) {
    var n := |outcomes| - 1;
    CallsGive(t, s, calls, if n >= 0 && outcomes[n].EpochAborted? then outcomes[..n] else outcomes, s')
  }

  /** One call after the other, until the clock fails the node. */
  method SeriesFrom(node: FiveCameraCapture, calls: seq<Surroundings>)
    returns (outcomes: seq<Outcome>, clocks: seq<int>, ghost end: Stand)
    requires node.Valid() && node.history == [] && forall i :: 0 <= i < |calls| ==> EventsOf(calls[i], node.cameras)
    modifies node
    ensures |clocks| == |outcomes| <= |calls|
    ensures |outcomes| < |calls| ==> |outcomes| > 0 && outcomes[|outcomes| - 1].EpochAborted?
    ensures old(node.now >= node.lastClockNs) && SteadyCalls(old(node.now), calls) ==> |outcomes| == |calls|
    ensures SeriesGives(node.Tuned(), old(node.Between()), calls, outcomes, end)
    ensures SeriesKeepsTime(calls, outcomes, clocks, node.cameras, node.settleNs, node.slopNs, Max(node.minNewRgb, 1))
  {
    outcomes, clocks := [], [];
    ghost var places: seq<nat>, start, steady := [], node.Between(), OnTime(node.now, node.lastClockNs, calls, 0);
    end := start;
    assert calls[0..] == calls;
    SeriesBegins(node.Tuned(), start, calls, node.cameras);
    hide SeriesSoFar, SeriesKeepsTime, SeriesGives, OnTime, EventsOf, HistoryOk, FiveCameraCapture.Valid;
    var i: nat := 0;
    while i < |calls|
      invariant node.Valid() && |outcomes| == |clocks| == i <= |calls| && end == node.Between()
      invariant i > 0 ==> !outcomes[i - 1].EpochAborted?
      invariant SeriesSoFar(node.Tuned(), start, calls, outcomes, clocks, places, node.history, node.cameras, end)
      invariant steady ==> OnTime(node.now, node.lastClockNs, calls, i)
    {
      var outcome;
      outcome, places, end := SeriesStep(node, calls, start, outcomes, clocks, places, end);
      outcomes, clocks, i := outcomes + [outcome], clocks + [node.lastClockNs], i + 1;
      if outcome.EpochAborted? {
        break;
      }
    }
    node.KeepsHistory();
    SeriesEnds(node.Tuned(), start, calls, outcomes, clocks, places, node.history, node.lastConsumed, node.lastClockNs,
               node.cameras, node.settleNs, node.slopNs, end);
  }

  /** The clock has not run backwards, and does not in the calls from i on. */
  ghost predicate OnTime(now: int, lastClock: int, calls: seq<Surroundings>, i: nat) {
    i <= |calls| && now >= lastClock && SteadyCalls(now, calls[i..])
  }

  /** One call of a series. */
  method SeriesStep(
    node: FiveCameraCapture, calls: seq<Surroundings>, ghost start: Stand, outcomes: seq<Outcome>, clocks: seq<int>,
    ghost places: seq<nat>, ghost s: Stand)
    returns (outcome: Outcome, ghost places': seq<nat>, ghost s': Stand)
    requires node.Valid() && |outcomes| == |clocks| < |calls| && EventsOf(calls[|outcomes|], node.cameras)
    requires SeriesSoFar(node.Tuned(), start, calls, outcomes, clocks, places, node.history, node.cameras, s)
    requires s == node.Between() && (outcomes != [] ==> !outcomes[|outcomes| - 1].EpochAborted?)
    modifies node
    ensures node.Valid()
    ensures SeriesSoFar(node.Tuned(), start, calls, outcomes + [outcome], clocks + [node.lastClockNs], places', node.history,
                        node.cameras, s')
    ensures !outcome.EpochAborted? ==> s' == node.Between()
    ensures OnTime(old(node.now), old(node.lastClockNs), calls, |outcomes|) ==>
              !outcome.EpochAborted? && OnTime(node.now, node.lastClockNs, calls, |outcomes| + 1)
  {
    hide SeriesSoFar, WaitedForEnough, CallGives, SteadyCalls, SteadyCall, LatestInCall, EventsOf, FiveCameraCapture.Valid;
    var i := |outcomes|;
    StepOfSteady(calls, i);
    ghost var began, history, steady := node.now, node.history, OnTime(node.now, node.lastClockNs, calls, i);
    outcome := NextCall(node, calls[i]);
    SeriesGoesOn(node.Tuned(), start, calls, outcomes, clocks, places, history, node.cameras, s,
                 outcome, node.lastClockNs, node.history, node.Between());
    places', s' := places + [|history|], if outcome.EpochAborted? then s else node.Between();
    if steady {
      EarlierCallsAreSteady(node.now, LatestInCall(began, calls[i]), calls[i + 1..]);
    }
  }

  lemma StepOfSteady(calls: seq<Surroundings>, i: nat)
    requires i < |calls|
    ensures forall t {:trigger SteadyCalls(t, calls[i..])} ::
              SteadyCalls(t, calls[i..]) ==>
                SteadyCall(t, calls[i]) && SteadyCalls(LatestInCall(t, calls[i]), calls[i + 1..])
  {
    hide SteadyCall, LatestInCall;
    assert calls[i..][0] == calls[i] && calls[i..][1..] == calls[i + 1..];
  }

  /** What holds between two calls of a series, and after its last one. */
  ghost predicate SeriesSoFar(
    t: Tuning, start: Stand, calls: seq<Surroundings>, outcomes: seq<Outcome>, clocks: seq<int>, places: seq<nat>,
    history: seq<Delivery>, cameras: nat, s: Stand)
  {
    && |outcomes| == |clocks| <= |calls| && Remembered(outcomes, clocks, places, history)
    && SeriesGives(t, start, calls, outcomes, s)
    && (forall k :: 0 <= k < |outcomes| - 1 ==> !outcomes[k].EpochAborted?)
    && forall k :: 0 <= k < |outcomes| ==> WaitedForEnough(calls[k], outcomes[k], clocks[k], cameras, Max(t.minNew, 1))
  }

  lemma SeriesBegins(t: Tuning, start: Stand, calls: seq<Surroundings>, cameras: nat)
    ensures SeriesSoFar(t, start, calls, [], [], [], [], cameras, start)
  {
    NoCalls(t, start, calls);
  }

  lemma SeriesGoesOn(
    t: Tuning, start: Stand, calls: seq<Surroundings>, outcomes: seq<Outcome>, clocks: seq<int>, places: seq<nat>,
    history: seq<Delivery>, cameras: nat, s: Stand, outcome: Outcome, clock: int, more: seq<Delivery>, s': Stand)
    requires SeriesSoFar(t, start, calls, outcomes, clocks, places, history, cameras, s) && |outcomes| < |calls|
    requires outcomes != [] ==> !outcomes[|outcomes| - 1].EpochAborted?
    requires more == if outcome.Captured? then history + [Delivery(outcome.frames, outcome.context, clock)] else history
    requires !outcome.EpochAborted? ==> CallGives(t, s, calls[|outcomes|], outcome, s')
    requires WaitedForEnough(calls[|outcomes|], outcome, clock, cameras, Max(t.minNew, 1))
    ensures SeriesSoFar(t, start, calls, outcomes + [outcome], clocks + [clock], places + [|history|], more, cameras,
                        if outcome.EpochAborted? then s else s')
  {
    hide CallGives, WaitedForEnough, Remembered, CallsGive;
    RemembersOne(outcomes, clocks, places, history, outcome, clock, more);
    if outcome.EpochAborted? {
      assert (outcomes + [outcome])[..|outcomes|] == outcomes;
    } else {
      OneMoreCall(t, start, calls, outcomes, s, outcome, s');
    }
  }

  lemma SeriesEnds(
    t: Tuning, start: Stand, calls: seq<Surroundings>, outcomes: seq<Outcome>, clocks: seq<int>, places: seq<nat>,
    history: seq<Delivery>, consumed: seq<int>, clock: int, cameras: nat, settle: int, slop: int, s: Stand)
    requires SeriesSoFar(t, start, calls, outcomes, clocks, places, history, cameras, s)
    requires HistoryOk(history, consumed, clock, settle, slop) && |consumed| == cameras
    ensures SeriesGives(t, start, calls, outcomes, s)
    ensures SeriesKeepsTime(calls, outcomes, clocks, cameras, settle, slop, Max(t.minNew, 1))
  {
    hide FreshBatch, LaterBatch, WaitedForEnough, Remembered, HistoryOk;
    HistoryTells(outcomes, clocks, places, history, consumed, clock, cameras, settle, slop);
  }

  lemma HistoryTells(
    outcomes: seq<Outcome>, clocks: seq<int>, places: seq<nat>, history: seq<Delivery>, consumed: seq<int>, clock: int,
    cameras: nat, settle: int, slop: int)
    requires Remembered(outcomes, clocks, places, history) && HistoryOk(history, consumed, clock, settle, slop)
    requires |consumed| == cameras
    ensures forall k :: 0 <= k < |outcomes| ==> FreshBatch(outcomes[k], clocks[k], cameras, settle, slop)
    ensures forall j, k :: 0 <= j < k < |outcomes| ==> LaterBatch(outcomes[j], clocks[j], outcomes[k])
  {
    hide Span;
    forall k | 0 <= k < |outcomes| && outcomes[k].Captured?
      ensures FreshBatch(outcomes[k], clocks[k], cameras, settle, slop)
    {
      var d := history[places[k]];
      assert DeliveryOk(d, cameras, settle, slop);
      forall c | 0 <= c < cameras
        ensures d.context.barrier < d.frames[c].stamp <= d.clock
      {
      }
    }
    forall j, k | 0 <= j < k < |outcomes| && outcomes[j].Captured? && outcomes[k].Captured?
      ensures LaterBatch(outcomes[j], clocks[j], outcomes[k])
    {
      assert Follows(history[places[j]], history[places[k]]);
      forall c | 0 <= c < |outcomes[j].frames|
        ensures outcomes[j].frames[c].stamp < outcomes[k].frames[c].stamp
      {
        assert history[places[j]].frames[c] == outcomes[j].frames[c];
      }
    }
  }

  /** With a non-negative settle time, every frame of a later batch is newer than every frame of an earlier one. */
  lemma BatchesAreOrderedAcrossCameras(
    earlier: Outcome, clock: int, later: Outcome, laterClock: int, cameras: nat, settle: int, slop: int, c: nat, e: nat)
    requires FreshBatch(earlier, clock, cameras, settle, slop) && FreshBatch(later, laterClock, cameras, settle, slop)
    requires LaterBatch(earlier, clock, later) && settle >= 0
    requires earlier.Captured? && later.Captured? && c < cameras && e < cameras
    ensures later.context.ack <= later.context.barrier
    ensures earlier.frames[c].stamp <= clock <= later.context.issue < later.frames[e].stamp
  {
    hide Span;
  }

  lemma NothingNew(arrivals: seq<seq<Arrival>>, clock: int, spin: nat)
    ensures Grown(arrivals, arrivals, clock, spin)
  {
  }

  lemma GrownOn(
    a: seq<seq<Arrival>>, b: seq<seq<Arrival>>, c: seq<seq<Arrival>>, x: int, y: int, since: nat, later: nat)
    requires Grown(a, b, x, since) && Grown(b, c, y, later) && x <= y && since <= later
    ensures Grown(a, c, x, since)
  {
    forall i | 0 <= i < |a|
      ensures GrownAt(a[i], c[i], x, since)
    {
      assert GrownAt(a[i], b[i], x, since) && GrownAt(b[i], c[i], y, later);
    }
  }

  lemma BatchMember(cands: seq<seq<Pair>>, b: seq<Pair>, c: nat)
    requires IsBatch(cands, b) && c < |cands|
    ensures b[c] in cands[c]
  {
    assert b[c] == b[c];
  }

  lemma FreshDelivery(d: Delivery, cameras: nat, settle: int, slop: int)
    requires |d.frames| == cameras > 0 && Span(d.frames) <= slop
    requires 0 < d.context.issue <= d.context.ack && d.context.barrier == d.context.ack + settle
    requires forall c :: 0 <= c < cameras ==> d.context.barrier < d.frames[c].stamp <= d.clock
    ensures DeliveryOk(d, cameras, settle, slop)
  {
  }

  /** Arrival records only grow; what was added came in at or after `clock`, in a later spin than `spin`. */
  ghost predicate Grown(before: seq<seq<Arrival>>, after: seq<seq<Arrival>>, clock: int, spin: nat) {
    && |before| == |after|
    && forall c :: 0 <= c < |before| ==> GrownAt(before[c], after[c], clock, spin)
  }

  ghost predicate GrownAt(before: seq<Arrival>, after: seq<Arrival>, clock: int, spin: nat) {
    before <= after && forall k :: |before| <= k < |after| ==> after[k].clock >= clock && after[k].spin > spin
  }

  /** The pair is a buffered frame that came in when the clock had already reached the barrier. */
  ghost predicate DeliveredAfter(buffer: seq<Frame>, arrivals: seq<Arrival>, p: Pair, barrier: int) {
    exists f :: f in buffer && f.stamp == p.stamp && f.image == p.image
      && 0 < f.count <= |arrivals| && arrivals[f.count - 1].clock >= barrier
  }

  /** Fresh frames in the buffers of every camera, all of them from after settling. */
  ghost predicate EnoughFresh(
    rgb: seq<seq<Frame>>, arrivals: seq<seq<Arrival>>, barrier: int, consumed: seq<int>, clock: int, minNew: nat)
    requires |rgb| == |arrivals| == |consumed|
  {
    forall c :: 0 <= c < |rgb| ==> EnoughIn(rgb[c], arrivals[c], barrier, consumed[c], clock, minNew)
  }

  /** So many frames of different stamps came in once the clock had reached the barrier, stamped after it and after last use. */
  ghost predicate EnoughIn(buffer: seq<Frame>, arrivals: seq<Arrival>, barrier: int, consumed: int, clock: int, minNew: nat) {
    var stamps := set f | f in buffer && CameInAfter(f, arrivals, barrier) && barrier < f.stamp && consumed < f.stamp <= clock :: f.stamp;
    |stamps| >= minNew
  }

  ghost predicate CameInAfter(f: Frame, arrivals: seq<Arrival>, barrier: int) {
    0 < f.count <= |arrivals| && arrivals[f.count - 1].clock >= barrier
  }

  lemma FreshFramesCameIn(
    buffer: seq<Frame>, count: nat, lastStamp: int, settled: seq<Arrival>, arrivals: seq<Arrival>,
    clock: int, spins: nat, barrier: int, since: nat, consumed: int, minNew: nat)
    requires BufferOk(buffer, count, lastStamp, arrivals, clock, spins) && GrownAt(settled, arrivals, barrier, since)
    requires PairCandidates(buffer, |settled|, Max(barrier, consumed), clock, minNew) != []
    ensures EnoughIn(buffer, arrivals, barrier, consumed, clock, Max(minNew, 1))
  {
    CandidatesWhenEnough(buffer, |settled|, Max(barrier, consumed), clock, minNew);
    hide PairCandidates, IncreasingFrames;
    var stamps := set f | f in buffer && CameInAfter(f, arrivals, barrier) && barrier < f.stamp && consumed < f.stamp <= clock :: f.stamp;
    SubsetSize(FreshStamps(buffer, |settled|, Max(barrier, consumed), clock), stamps);
  }

  lemma ArrivedAfterSettling(
    buffer: seq<Frame>, count: nat, lastStamp: int, settled: seq<Arrival>, arrivals: seq<Arrival>,
    clock: int, spins: nat, barrier: int, since: nat, p: Pair)
    requires BufferOk(buffer, count, lastStamp, arrivals, clock, spins) && GrownAt(settled, arrivals, barrier, since)
    requires exists f :: f in buffer && f.count > |settled| && f.stamp == p.stamp && f.image == p.image
    ensures DeliveredAfter(buffer, arrivals, p, barrier)
  {
  }
}
