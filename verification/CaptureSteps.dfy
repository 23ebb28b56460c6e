/**
 What the capture node makes of the events that reach it, on values: its buffers and clock,
 the candidates it offers the chooser, and what a call gives.  CaptureNode holds the node.
 */
module CaptureSteps {
  import opened Options
  import opened BatchChooser
  import opened CaptureEvents

  // ---------------------------------------------------------------- what the node keeps

  /** A buffered frame; `count` numbers the accepted frames of its camera from 1. */
  datatype Frame = Frame(count: nat, stamp: int, image: int)

  datatype Context = Context(issue: int, ack: int, barrier: int)

  datatype Outcome = Captured(frames: seq<Pair>, context: Context) | Failed | EpochAborted

  /** When a frame came in: the clock as last read, and the number of the spin that let it in. */
  datatype Arrival = Arrival(clock: int, spin: nat)

  /** What the frame callbacks keep: per camera the deque, its counters and the arrivals. */
  datatype Buffers = Buffers(rgb: seq<seq<Frame>>, counts: seq<nat>, lastStamps: seq<int>, arrivals: seq<seq<Arrival>>)

  function Max(a: int, b: int): int {
    if a >= b then a else b
  }

  /** The buffers after a frame; a stamp that is not new changes nothing. */
  ghost function Received(b: Buffers, camera: nat, stamp: int, image: int, arrival: Arrival, maxLength: nat): Buffers
    requires camera < |b.rgb| == |b.counts| == |b.lastStamps| == |b.arrivals|
  {
    if stamp <= b.lastStamps[camera] then b
    else
      var count := b.counts[camera] + 1;
      Buffers(b.rgb[camera := Appended(b.rgb[camera], Frame(count, stamp, image), maxLength)],
        b.counts[camera := count], b.lastStamps[camera := stamp],
        b.arrivals[camera := b.arrivals[camera] + [arrival]])
  }

  /** A deque with a maximal length drops its oldest frame when a new one is appended to a full one. */
  function Appended(buffer: seq<Frame>, f: Frame, maxLength: nat): seq<Frame> {
    var longer := buffer + [f];
    if |longer| > maxLength then longer[1..] else longer
  }

  /** The buffers after one event. */
  ghost function AfterEvent(b: Buffers, e: Event, arrival: Arrival, maxLength: nat): Buffers {
    if e.Rgb? && e.camera < |b.rgb| == |b.counts| == |b.lastStamps| == |b.arrivals| then
      Received(b, e.camera, e.stamp, e.image, arrival, maxLength)
    else b
  }

  ghost predicate Shaped(b: Buffers, cameras: nat) {
    |b.rgb| == |b.counts| == |b.lastStamps| == |b.arrivals| == cameras
  }

  /** No buffered frame of the camera is numbered beyond its count. */
  ghost predicate OldFrames(b: Buffers, camera: nat)
    requires Shaped(b, |b.rgb|) && camera < |b.rgb|
  {
    forall f :: f in b.rgb[camera] ==> f.count <= b.counts[camera]
  }

  /** Where a node stands: its buffers, its clock and the number of spins. */
  datatype Progress = Progress(seen: Buffers, clock: int, spins: nat)

  /** After a list of events, one per spin. */
  ghost function After(p: Progress, events: seq<Event>, maxLength: nat): (r: Progress)
    ensures r.spins == p.spins + |events|
  {
    if events == [] then p
    else
      var n := |events| - 1;
      var q := After(p, events[..n], maxLength);
      Progress(AfterEvent(q.seen, events[n], Arrival(q.clock, q.spins + 1), maxLength),
               if events[n].Clock? then events[n].now else q.clock, q.spins + 1)
  }

  lemma {:induction false} AfterBoth(p: Progress, first: seq<Event>, more: seq<Event>, maxLength: nat)
    ensures After(p, first + more, maxLength) == After(After(p, first, maxLength), more, maxLength)
  {
    hide AfterEvent;
    if more == [] {
      assert first + more == first;
    } else {
      var n := |more| - 1;
      AfterBoth(p, first, more[..n], maxLength);
      assert (first + more)[..|first| + n] == first + more[..n];
    }
  }

  /** The node went from p to q by the first of the events, as many as there were spins. */
  ghost predicate TookIn(p: Progress, events: seq<Event>, maxLength: nat, q: Progress) {
    p.spins <= q.spins <= p.spins + |events| && q == After(p, events[..q.spins - p.spins], maxLength)
  }

  lemma TookInNothing(p: Progress, events: seq<Event>, maxLength: nat)
    ensures TookIn(p, events, maxLength, p)
  {
  }

  lemma TookInOneMore(p: Progress, events: seq<Event>, maxLength: nat, q: Progress)
    requires TookIn(p, events, maxLength, q) && q.spins < p.spins + |events|
    ensures var e := events[q.spins - p.spins];
            TookIn(p, events, maxLength, Progress(AfterEvent(q.seen, e, Arrival(q.clock, q.spins + 1), maxLength),
                                                  if e.Clock? then e.now else q.clock, q.spins + 1))
  {
    hide AfterEvent;
    var i := q.spins - p.spins;
    assert events[..i + 1][..i] == events[..i];
  }

  lemma TookInAll(p: Progress, events: seq<Event>, maxLength: nat, q: Progress)
    ensures q.spins == p.spins + |events| ==> (TookIn(p, events, maxLength, q) <==> q == After(p, events, maxLength))
  {
    assert events[..|events|] == events;
  }

  lemma NoneTaken(q: Progress, events: seq<Event>, maxLength: nat, r: Progress)
    requires TookIn(q, events, maxLength, r) && r.spins == q.spins
    ensures r == q
  {
    assert events[..0] == [];
  }

  /** The buffer is the camera's latest frames, numbered without a gap, as many as there are and fit. */
  ghost predicate HoldsLatest(buffer: seq<Frame>, count: nat, maxLength: nat) {
    && |buffer| == (if count <= maxLength then count else maxLength)
    && forall k :: 0 <= k < |buffer| ==> buffer[k].count == count - |buffer| + 1 + k
  }

  lemma LatestAfterOne(buffer: seq<Frame>, count: nat, maxLength: nat, stamp: int, image: int)
    requires HoldsLatest(buffer, count, maxLength) && maxLength > 0
    ensures HoldsLatest(Appended(buffer, Frame(count + 1, stamp, image), maxLength), count + 1, maxLength)
  {
  }

  lemma {:induction false} BuffersHoldTheLatest(p: Progress, events: seq<Event>, maxLength: nat, camera: nat)
    requires Shaped(p.seen, |p.seen.rgb|) && camera < |p.seen.rgb| && maxLength > 0
    requires HoldsLatest(p.seen.rgb[camera], p.seen.counts[camera], maxLength)
    ensures var q := After(p, events, maxLength).seen;
            Shaped(q, |p.seen.rgb|) && HoldsLatest(q.rgb[camera], q.counts[camera], maxLength)
  {
    if events != [] {
      hide HoldsLatest, Appended;
      var n := |events| - 1;
      BuffersHoldTheLatest(p, events[..n], maxLength, camera);
      var q, e := After(p, events[..n], maxLength).seen, events[n];
      if e.Rgb? && e.camera == camera {
        LatestAfterOne(q.rgb[camera], q.counts[camera], maxLength, e.stamp, e.image);
      }
    }
  }

  // ---------------------------------------------------------------- the candidates

  /** The buffered frames delivered after `before` and stamped after `floor`, not later than `clock`. */
  function FreshFrames(buffer: seq<Frame>, before: nat, floor: int, clock: int): seq<Frame> {
    if buffer == [] then [] else
      (if buffer[0].count > before && floor < buffer[0].stamp <= clock then [buffer[0]] else [])
        + FreshFrames(buffer[1..], before, floor, clock)
  }

  function PairsOf(frames: seq<Frame>): seq<Pair> {
    seq(|frames|, i requires 0 <= i < |frames| => Pair(frames[i].stamp, frames[i].image))
  }

  /** No candidates at all until enough distinct fresh stamps have come in. */
  function PairCandidates(buffer: seq<Frame>, before: nat, floor: int, clock: int, minNew: nat): seq<Pair> {
    var fresh' := FreshFrames(buffer, before, floor, clock);
    if |(set f | f in fresh' :: f.stamp)| < minNew then [] else PairsOf(fresh')
  }

  /** Per camera the candidates stamped after barrier and last use. */
  function FreshCandidates(
    rgb: seq<seq<Frame>>, before: seq<nat>, barrier: int, consumed: seq<int>, clock: int, minNew: nat): (cands: seq<seq<Pair>>)
    requires |rgb| == |before| == |consumed|
    ensures |cands| == |rgb|
  {
    seq(|rgb|, c requires 0 <= c < |rgb| =>
      PairCandidates(rgb[c], before[c], Max(barrier, consumed[c]), clock, minNew))
  }

  lemma {:induction false} FreshFramesAreFresh(buffer: seq<Frame>, before: nat, floor: int, clock: int, f: Frame)
    ensures f in FreshFrames(buffer, before, floor, clock) <==>
              f in buffer && f.count > before && floor < f.stamp <= clock
  {
    if buffer != [] {
      FreshFramesAreFresh(buffer[1..], before, floor, clock, f);
      assert f in buffer <==> f == buffer[0] || f in buffer[1..];
    }
  }

  lemma CandidateIsFresh(buffer: seq<Frame>, before: nat, floor: int, clock: int, minNew: nat, p: Pair)
    requires p in PairCandidates(buffer, before, floor, clock, minNew)
    ensures floor < p.stamp <= clock
    ensures exists f :: f in buffer && f.count > before && f.stamp == p.stamp && f.image == p.image
  {
    var fresh' := FreshFrames(buffer, before, floor, clock);
    var i :| 0 <= i < |fresh'| && PairsOf(fresh')[i] == p;
    FreshFramesAreFresh(buffer, before, floor, clock, fresh'[i]);
  }

  /** The stamps of the buffered frames numbered beyond `before`, after the floor and not after the clock. */
  ghost function FreshStamps(buffer: seq<Frame>, before: nat, floor: int, clock: int): set<int> {
    set f | f in buffer && f.count > before && floor < f.stamp <= clock :: f.stamp
  }

  /** There are candidates exactly if enough frames of different stamps are fresh, at least one. */
  lemma CandidatesWhenEnough(buffer: seq<Frame>, before: nat, floor: int, clock: int, minNew: nat)
    ensures PairCandidates(buffer, before, floor, clock, minNew) != [] <==>
              |FreshStamps(buffer, before, floor, clock)| >= Max(minNew, 1)
  {
    var fresh' := FreshFrames(buffer, before, floor, clock);
    var stamps := set f | f in fresh' :: f.stamp;
    forall f
      ensures f in fresh' <==> f in buffer && f.count > before && floor < f.stamp <= clock
    {
      FreshFramesAreFresh(buffer, before, floor, clock, f);
    }
    assert FreshStamps(buffer, before, floor, clock) == stamps;
    if fresh' != [] {
      assert fresh'[0].stamp in stamps;
      assert stamps != {};
    } else {
      assert stamps == {};
    }
  }

  /** What the chooser makes of the candidates. */
  ghost predicate ChooserSays(cands: seq<seq<Pair>>, slop: int, r: Option<seq<Pair>>) {
    if AllCamerasHaveFrames(cands) then Chosen(cands, slop, r) else r.None?
  }

  // ---------------------------------------------------------------- what a call gives

  /** Up to but without prefix n of the events the clock is below the barrier. */
  ghost predicate BelowUntil(p: Progress, events: seq<Event>, maxLength: nat, n: int, barrier: int) {
    forall j :: 0 <= j < n && j <= |events| ==> After(p, events[..j], maxLength).clock < barrier
  }

  lemma BelowOneMore(p: Progress, events: seq<Event>, maxLength: nat, q: Progress, barrier: int)
    requires TookIn(p, events, maxLength, q) && q.clock < barrier
    requires BelowUntil(p, events, maxLength, q.spins - p.spins, barrier)
    ensures BelowUntil(p, events, maxLength, q.spins - p.spins + 1, barrier)
  {
    hide After;
  }

  lemma NothingBelow(p: Progress, events: seq<Event>, maxLength: nat, barrier: int)
    ensures BelowUntil(p, events, maxLength, 0, barrier)
  {
  }

  /** The node settles at q: with the first clock reading at or past the barrier since the pose was set. */
  ghost predicate SettlesAt(p: Progress, env: Surroundings, maxLength: nat, barrier: int, q: Progress) {
    var posed := After(p, env.posing, maxLength);
    && TookIn(posed, env.settling, maxLength, q) && q.clock >= barrier
    && BelowUntil(posed, env.settling, maxLength, q.spins - posed.spins, barrier)
  }

  /** What the chooser says about the frames that came in between q and r. */
  ghost predicate SaysBetween(
    q: Progress, r: Progress, barrier: int, consumed: seq<int>, minNew: nat, slop: int, result: Option<seq<Pair>>)
  {
    && |r.seen.rgb| == |q.seen.counts| == |consumed|
    && ChooserSays(FreshCandidates(r.seen.rgb, q.seen.counts, barrier, consumed, r.clock, minNew), slop, result)
  }

  /** After fewer than n events, but at least one, it says that there is no batch. */
  ghost predicate NothingUntil(
    q: Progress, events: seq<Event>, maxLength: nat, n: int, barrier: int, consumed: seq<int>, minNew: nat, slop: int)
  {
    forall k :: 0 < k < n && k <= |events| ==>
      SaysBetween(q, After(q, events[..k], maxLength), barrier, consumed, minNew, slop, None)
  }

  lemma NothingOneMore(
    q: Progress, events: seq<Event>, maxLength: nat, r: Progress, barrier: int, consumed: seq<int>, minNew: nat, slop: int)
    requires TookIn(q, events, maxLength, r)
    requires NothingUntil(q, events, maxLength, r.spins - q.spins, barrier, consumed, minNew, slop)
    requires r.spins > q.spins ==> SaysBetween(q, r, barrier, consumed, minNew, slop, None)
    ensures NothingUntil(q, events, maxLength, r.spins - q.spins + 1, barrier, consumed, minNew, slop)
  {
    hide After, SaysBetween;
  }

  lemma NothingBefore(q: Progress, events: seq<Event>, maxLength: nat, barrier: int, consumed: seq<int>, minNew: nat, slop: int)
    ensures NothingUntil(q, events, maxLength, 0, barrier, consumed, minNew, slop)
    ensures NothingUntil(q, events, maxLength, 1, barrier, consumed, minNew, slop)
  {
  }

  /**
   During a call the node settled, waited, and then the chooser said `result` about the
   frames that came in while it waited: a batch as soon as there was one, none at the end.
   */
  ghost predicate Decided(
    p: Progress, env: Surroundings, maxLength: nat, r: Progress, barrier: int, consumed: seq<int>, minNew: nat, slop: int,
    result: Option<seq<Pair>>)
  {
    exists q: Progress ::
      && SettlesAt(p, env, maxLength, barrier, q) && TookIn(q, env.waiting, maxLength, r)
      && q.spins < r.spins && (result.None? ==> r.spins == q.spins + |env.waiting|)
      && NothingUntil(q, env.waiting, maxLength, r.spins - q.spins, barrier, consumed, minNew, slop)
      && SaysBetween(q, r, barrier, consumed, minNew, slop, result)
  }

  lemma Decides(
    p: Progress, env: Surroundings, maxLength: nat, q: Progress, r: Progress, barrier: int, consumed: seq<int>, minNew: nat,
    slop: int, result: Option<seq<Pair>>)
    requires SettlesAt(p, env, maxLength, barrier, q) && TookIn(q, env.waiting, maxLength, r)
    requires q.spins < r.spins && (result.None? ==> r.spins == q.spins + |env.waiting|)
    requires NothingUntil(q, env.waiting, maxLength, r.spins - q.spins, barrier, consumed, minNew, slop)
    requires SaysBetween(q, r, barrier, consumed, minNew, slop, result)
    ensures Decided(p, env, maxLength, r, barrier, consumed, minNew, slop, result)
  {
  }

  /** The settings of a node that decide what a call gives. */
  datatype Tuning = Tuning(settleNs: int, slopNs: int, minNew: nat, bufferSize: nat)

  /** A node between two calls: where it stands and the stamps it used last. */
  datatype Stand = Stand(at: Progress, consumed: seq<int>)

  /** The call ends without a wait: the clock does not run, the pose is refused or the barrier is never reached. */
  ghost predicate StopsEarly(t: Tuning, p: Progress, env: Surroundings, q: Progress) {
    var posed := After(p, env.posing, t.bufferSize);
    if p.clock <= 0 then q == p
    else if !env.poseAccepted then q == posed
    else
      && q == After(posed, env.settling, t.bufferSize)
      && BelowUntil(posed, env.settling, t.bufferSize, |env.settling| + 1, posed.clock + t.settleNs)
  }

  /** The node's own clock readings around the pose command. */
  function TimedBy(t: Tuning, p: Progress, posed: Progress): Context {
    Context(p.clock, posed.clock, posed.clock + t.settleNs)
  }

  /** What a call gives, and where it leaves the node, from where it stands and all that reaches it. */
  ghost predicate CallGives(t: Tuning, s: Stand, env: Surroundings, outcome: Outcome, s': Stand) {
    var x := TimedBy(t, s.at, After(s.at, env.posing, t.bufferSize));
    match outcome
    case EpochAborted => false
    case Captured(frames, context) =>
      && s.at.clock > 0 && env.poseAccepted && context == x && s'.consumed == StampsOf(frames)
      && Decided(s.at, env, t.bufferSize, s'.at, x.barrier, s.consumed, t.minNew, t.slopNs, Some(frames))
    case Failed =>
      && s'.consumed == s.consumed
      && (|| StopsEarly(t, s.at, env, s'.at)
          || (&& s.at.clock > 0 && env.poseAccepted
              && if env.waiting == [] then SettlesAt(s.at, env, t.bufferSize, x.barrier, s'.at)
                 else Decided(s.at, env, t.bufferSize, s'.at, x.barrier, s.consumed, t.minNew, t.slopNs, None)))
  }

  lemma GivesNothingEarly(t: Tuning, s: Stand, env: Surroundings, s': Stand)
    requires StopsEarly(t, s.at, env, s'.at) && s'.consumed == s.consumed
    ensures CallGives(t, s, env, Failed, s')
  {
  }

  /** A node that has settled at q gives what the chooser says while it waits. */
  lemma GivesWhatIsChosen(
    t: Tuning, s: Stand, env: Surroundings, context: Context, q: Progress, outcome: Outcome, s': Stand)
    requires s.at.clock > 0 && env.poseAccepted && context == TimedBy(t, s.at, After(s.at, env.posing, t.bufferSize))
    requires SettlesAt(s.at, env, t.bufferSize, context.barrier, q) && TookIn(q, env.waiting, t.bufferSize, s'.at)
    requires NothingUntil(q, env.waiting, t.bufferSize, s'.at.spins - q.spins, context.barrier, s.consumed, t.minNew, t.slopNs)
    requires s'.at.spins > q.spins ==>
               SaysBetween(q, s'.at, context.barrier, s.consumed, t.minNew, t.slopNs,
                           if outcome.Captured? then Some(outcome.frames) else None)
    requires match outcome
             case EpochAborted => false
             case Captured(frames, x) => x == context && s'.consumed == StampsOf(frames) && s'.at.spins > q.spins
             case Failed => s'.consumed == s.consumed && s'.at.spins == q.spins + |env.waiting|
    ensures CallGives(t, s, env, outcome, s')
    ensures outcome.Captured? ==>
              Decided(s.at, env, t.bufferSize, s'.at, context.barrier, s.consumed, t.minNew, t.slopNs, Some(outcome.frames))
  {
    hide After, SaysBetween, NothingUntil, StopsEarly, StampsOf;
    if s'.at.spins > q.spins {
      Decides(s.at, env, t.bufferSize, q, s'.at, context.barrier, s.consumed, t.minNew, t.slopNs,
              if outcome.Captured? then Some(outcome.frames) else None);
    } else {
      NoneTaken(q, env.waiting, t.bufferSize, s'.at);
    }
  }

  /** Call after call: what each gives, from where the one before left the node. */
  ghost predicate CallsGive(t: Tuning, s: Stand, calls: seq<Surroundings>, outcomes: seq<Outcome>, s': Stand)
    decreases |outcomes|
  {
    && |outcomes| <= |calls|
    && if outcomes == [] then s' == s
       else
         var n := |outcomes| - 1;
         exists mid: Stand :: CallsGive(t, s, calls, outcomes[..n], mid) && CallGives(t, mid, calls[n], outcomes[n], s')
  }

  lemma NoCalls(t: Tuning, s: Stand, calls: seq<Surroundings>)
    ensures CallsGive(t, s, calls, [], s)
  {
  }

  lemma OneMoreCall(t: Tuning, s: Stand, calls: seq<Surroundings>, outcomes: seq<Outcome>, mid: Stand, outcome: Outcome, s': Stand)
    requires CallsGive(t, s, calls, outcomes, mid) && |outcomes| < |calls|
    requires CallGives(t, mid, calls[|outcomes|], outcome, s')
    ensures CallsGive(t, s, calls, outcomes + [outcome], s')
  {
    hide CallGives;
    assert (outcomes + [outcome])[..|outcomes|] == outcomes;
  }

  // ---------------------------------------------------------------- the events leave no choice

  lemma ChooserDecides(cands: seq<seq<Pair>>, slop: int, r: Option<seq<Pair>>, r': Option<seq<Pair>>)
    requires ChooserSays(cands, slop, r) && ChooserSays(cands, slop, r')
    ensures r == r'
  {
    hide Winner, Select, Span, MinStamp;
    if AllCamerasHaveFrames(cands) {
      var a :| Winner(cands, a) && r == if Span(Select(cands, a)) > slop then None else Some(Select(cands, a));
      var b :| Winner(cands, b) && r' == if Span(Select(cands, b)) > slop then None else Some(Select(cands, b));
      WinnerIsTheNewestClosest(cands, a);
      WinnerIsTheNewestClosest(cands, b);
      assert Span(Select(cands, a)) == Span(Select(cands, b));
    }
  }

  lemma SettlesOnce(p: Progress, env: Surroundings, maxLength: nat, barrier: int, q: Progress, q': Progress)
    requires SettlesAt(p, env, maxLength, barrier, q) && SettlesAt(p, env, maxLength, barrier, q')
    ensures q == q'
  {
    hide After;
  }

  lemma SaysOnce(
    q: Progress, r: Progress, barrier: int, consumed: seq<int>, minNew: nat, slop: int, result: Option<seq<Pair>>,
    result': Option<seq<Pair>>)
    requires SaysBetween(q, r, barrier, consumed, minNew, slop, result)
    requires SaysBetween(q, r, barrier, consumed, minNew, slop, result')
    ensures result == result'
  {
    ChooserDecides(FreshCandidates(r.seen.rgb, q.seen.counts, barrier, consumed, r.clock, minNew), slop, result, result');
  }

  /** A wait that ended with a batch did so before any other end. */
  lemma NoEarlierEnd(
    q: Progress, events: seq<Event>, maxLength: nat, r: Progress, r': Progress, barrier: int, consumed: seq<int>, minNew: nat,
    slop: int, result: Option<seq<Pair>>)
    requires TookIn(q, events, maxLength, r) && TookIn(q, events, maxLength, r') && q.spins < r.spins < r'.spins
    requires NothingUntil(q, events, maxLength, r'.spins - q.spins, barrier, consumed, minNew, slop)
    requires SaysBetween(q, r, barrier, consumed, minNew, slop, result)
    ensures result.None?
  {
    hide After, SaysBetween;
    assert SaysBetween(q, r, barrier, consumed, minNew, slop, None);
    SaysOnce(q, r, barrier, consumed, minNew, slop, result, None);
  }

  lemma DecidedOnce(
    p: Progress, env: Surroundings, maxLength: nat, barrier: int, consumed: seq<int>, minNew: nat, slop: int,
    r: Progress, result: Option<seq<Pair>>, r': Progress, result': Option<seq<Pair>>)
    requires Decided(p, env, maxLength, r, barrier, consumed, minNew, slop, result)
    requires Decided(p, env, maxLength, r', barrier, consumed, minNew, slop, result')
    ensures r == r' && result == result'
  {
    hide SettlesAt, NothingUntil, SaysBetween, After;
    var q: Progress :|
      && SettlesAt(p, env, maxLength, barrier, q) && TookIn(q, env.waiting, maxLength, r)
      && q.spins < r.spins && (result.None? ==> r.spins == q.spins + |env.waiting|)
      && NothingUntil(q, env.waiting, maxLength, r.spins - q.spins, barrier, consumed, minNew, slop)
      && SaysBetween(q, r, barrier, consumed, minNew, slop, result);
    var q': Progress :|
      && SettlesAt(p, env, maxLength, barrier, q') && TookIn(q', env.waiting, maxLength, r')
      && q'.spins < r'.spins && (result'.None? ==> r'.spins == q'.spins + |env.waiting|)
      && NothingUntil(q', env.waiting, maxLength, r'.spins - q'.spins, barrier, consumed, minNew, slop)
      && SaysBetween(q', r', barrier, consumed, minNew, slop, result');
    SettlesOnce(p, env, maxLength, barrier, q, q');
    if r.spins < r'.spins {
      NoEarlierEnd(q, env.waiting, maxLength, r, r', barrier, consumed, minNew, slop, result);
    } else if r'.spins < r.spins {
      NoEarlierEnd(q, env.waiting, maxLength, r', r, barrier, consumed, minNew, slop, result');
    } else {
      SaysOnce(q, r, barrier, consumed, minNew, slop, result, result');
    }
  }

  lemma StopsOrSettles(t: Tuning, p: Progress, env: Surroundings, q: Progress, q': Progress)
    requires StopsEarly(t, p, env, q) && p.clock > 0 && env.poseAccepted
    ensures !SettlesAt(p, env, t.bufferSize, After(p, env.posing, t.bufferSize).clock + t.settleNs, q')
  {
    hide After;
  }

  lemma DecidedSettles(
    p: Progress, env: Surroundings, maxLength: nat, r: Progress, barrier: int, consumed: seq<int>, minNew: nat, slop: int,
    result: Option<seq<Pair>>) returns (q: Progress)
    requires Decided(p, env, maxLength, r, barrier, consumed, minNew, slop, result)
    ensures SettlesAt(p, env, maxLength, barrier, q) && env.waiting != []
  {
    hide SettlesAt, NothingUntil, SaysBetween, After;
    q :| SettlesAt(p, env, maxLength, barrier, q) && TookIn(q, env.waiting, maxLength, r) && q.spins < r.spins;
  }

  /** How a call ends: without a wait, at a wait for nothing, or as the chooser says. */
  datatype Ends = Early | AtOnce | ByChooser

  ghost predicate EndsAs(t: Tuning, s: Stand, env: Surroundings, outcome: Outcome, s': Stand, how: Ends) {
    var barrier := After(s.at, env.posing, t.bufferSize).clock + t.settleNs;
    && (how.Early? ==> StopsEarly(t, s.at, env, s'.at) && outcome.Failed?)
    && (!how.Early? ==> s.at.clock > 0 && env.poseAccepted)
    && (how.AtOnce? ==> env.waiting == [] && SettlesAt(s.at, env, t.bufferSize, barrier, s'.at) && outcome.Failed?)
    && (how.ByChooser? ==>
          Decided(s.at, env, t.bufferSize, s'.at, barrier, s.consumed, t.minNew, t.slopNs,
                  if outcome.Captured? then Some(outcome.frames) else None))
  }

  lemma EndOf(t: Tuning, s: Stand, env: Surroundings, outcome: Outcome, s': Stand) returns (how: Ends)
    requires CallGives(t, s, env, outcome, s')
    ensures EndsAs(t, s, env, outcome, s', how)
  {
    hide After, StopsEarly, SettlesAt, Decided;
    how := if outcome.Captured? then ByChooser
           else if StopsEarly(t, s.at, env, s'.at) then Early
           else if env.waiting == [] then AtOnce else ByChooser;
  }

  lemma OneEnd(t: Tuning, s: Stand, env: Surroundings, o: Outcome, s': Stand, how: Ends, o': Outcome, s'': Stand, how': Ends)
    requires EndsAs(t, s, env, o, s', how) && EndsAs(t, s, env, o', s'', how')
    ensures how == how'
  {
    hide After, StopsEarly, SettlesAt, Decided;
    var barrier := After(s.at, env.posing, t.bufferSize).clock + t.settleNs;
    if how.ByChooser? {
      var q := DecidedSettles(s.at, env, t.bufferSize, s'.at, barrier, s.consumed, t.minNew, t.slopNs,
                              if o.Captured? then Some(o.frames) else None);
      if how'.Early? {
        StopsOrSettles(t, s.at, env, s''.at, q);
      }
    } else if how'.ByChooser? {
      var q := DecidedSettles(s.at, env, t.bufferSize, s''.at, barrier, s.consumed, t.minNew, t.slopNs,
                              if o'.Captured? then Some(o'.frames) else None);
      if how.Early? {
        StopsOrSettles(t, s.at, env, s'.at, q);
      }
    } else if how.Early? && how'.AtOnce? {
      StopsOrSettles(t, s.at, env, s'.at, s''.at);
    } else if how'.Early? && how.AtOnce? {
      StopsOrSettles(t, s.at, env, s''.at, s'.at);
    }
  }

  /** What a call gives is fixed by where the node stands and what reaches it. */
  lemma CallGivesOneThing(t: Tuning, s: Stand, env: Surroundings, o: Outcome, s': Stand, o': Outcome, s'': Stand)
    requires CallGives(t, s, env, o, s') && CallGives(t, s, env, o', s'')
    ensures o == o' && s' == s''
  {
    hide CallGives, After, StopsEarly, SettlesAt, Decided;
    var how := EndOf(t, s, env, o, s');
    var how' := EndOf(t, s, env, o', s'');
    OneEnd(t, s, env, o, s', how, o', s'', how');
    var barrier := After(s.at, env.posing, t.bufferSize).clock + t.settleNs;
    if how.Early? {
      OneStop(t, s.at, env, s'.at, s''.at);
    } else if how.AtOnce? {
      SettlesOnce(s.at, env, t.bufferSize, barrier, s'.at, s''.at);
    } else {
      DecidedOnce(s.at, env, t.bufferSize, barrier, s.consumed, t.minNew, t.slopNs,
                  s'.at, if o.Captured? then Some(o.frames) else None, s''.at, if o'.Captured? then Some(o'.frames) else None);
    }
    SameOutcome(t, s, env, o, s', o', s'');
  }

  lemma SameOutcome(t: Tuning, s: Stand, env: Surroundings, o: Outcome, s': Stand, o': Outcome, s'': Stand)
    requires CallGives(t, s, env, o, s') && CallGives(t, s, env, o', s'') && s'.at == s''.at
    requires (if o.Captured? then Some(o.frames) else None) == if o'.Captured? then Some(o'.frames) else None
    ensures o == o' && s' == s''
  {
    hide After, StopsEarly, SettlesAt, Decided, StampsOf;
  }

  lemma OneStop(t: Tuning, p: Progress, env: Surroundings, q: Progress, q': Progress)
    requires StopsEarly(t, p, env, q) && StopsEarly(t, p, env, q')
    ensures q == q'
  {
    hide After;
  }

  /** So is a whole series of calls. */
  lemma {:induction false} CallsGiveOneThing(
    t: Tuning, s: Stand, calls: seq<Surroundings>, outcomes: seq<Outcome>, s': Stand, others: seq<Outcome>, s'': Stand)
    requires CallsGive(t, s, calls, outcomes, s') && CallsGive(t, s, calls, others, s'') && |outcomes| == |others|
    ensures outcomes == others && s' == s''
    decreases |outcomes|
  {
    hide CallGives;
    if outcomes != [] {
      var n := |outcomes| - 1;
      var mid: Stand :| CallsGive(t, s, calls, outcomes[..n], mid) && CallGives(t, mid, calls[n], outcomes[n], s');
      var mid': Stand :| CallsGive(t, s, calls, others[..n], mid') && CallGives(t, mid', calls[n], others[n], s'');
      CallsGiveOneThing(t, s, calls, outcomes[..n], mid, others[..n], mid');
      CallGivesOneThing(t, mid, calls[n], outcomes[n], s', others[n], s'');
      assert outcomes == outcomes[..n] + [outcomes[n]] && others == others[..n] + [others[n]];
    }
  }

  // ---------------------------------------------------------------- frames that were sent

  /** The stamps of the camera's frames among the events, after the floor and not after the clock. */
  ghost function StampsSent(events: seq<Event>, camera: nat, floor: int, clock: int): set<int> {
    set e | e in events && e.Rgb? && e.camera == camera && floor < e.stamp <= clock :: e.stamp
  }

  /** Of every camera at least so many frames of different stamps. */
  ghost predicate EnoughSent(events: seq<Event>, cameras: nat, floor: int, clock: int, minNew: nat) {
    forall c :: 0 <= c < cameras ==> |StampsSent(events, c, floor, clock)| >= minNew
  }

  ghost predicate SentAmong(events: seq<Event>, camera: nat, f: Frame) {
    exists i :: 0 <= i < |events| && events[i] == Rgb(camera, f.stamp, f.image)
  }

  lemma SentAmongMore(events: seq<Event>, n: nat, camera: nat, f: Frame)
    requires n <= |events| && SentAmong(events[..n], camera, f)
    ensures SentAmong(events, camera, f)
  {
    var i :| 0 <= i < n && events[..n][i] == Rgb(camera, f.stamp, f.image);
    assert events[i] == Rgb(camera, f.stamp, f.image);
  }

  /** The frames numbered beyond an earlier count are frames of the events since then. */
  lemma {:induction false} NewFramesWereSent(p: Progress, events: seq<Event>, maxLength: nat, camera: nat)
    requires Shaped(p.seen, |p.seen.rgb|) && camera < |p.seen.rgb| && OldFrames(p.seen, camera)
    ensures var q := After(p, events, maxLength);
            && Shaped(q.seen, |p.seen.rgb|) && OldFrames(q.seen, camera) && p.seen.counts[camera] <= q.seen.counts[camera]
            && forall f :: f in q.seen.rgb[camera] && f.count > p.seen.counts[camera] ==> SentAmong(events, camera, f)
  {
    if events != [] {
      var n := |events| - 1;
      NewFramesWereSent(p, events[..n], maxLength, camera);
      var before := After(p, events[..n], maxLength);
      var q := After(p, events, maxLength);
      forall f | f in q.seen.rgb[camera]
        ensures f in before.seen.rgb[camera] || (f.count == before.seen.counts[camera] + 1 == q.seen.counts[camera] && events[n] == Rgb(camera, f.stamp, f.image))
      {
        OneFrameMore(before.seen, events[n], Arrival(before.clock, before.spins + 1), maxLength, camera, f);
      }
      forall f | f in q.seen.rgb[camera] && f.count > p.seen.counts[camera]
        ensures SentAmong(events, camera, f)
      {
        if f in before.seen.rgb[camera] {
          SentAmongMore(events, n, camera, f);
        }
      }
    }
  }

  lemma OneFrameMore(b: Buffers, e: Event, arrival: Arrival, maxLength: nat, camera: nat, f: Frame)
    requires Shaped(b, |b.rgb|) && camera < |b.rgb| && f in AfterEvent(b, e, arrival, maxLength).rgb[camera]
    ensures var after := AfterEvent(b, e, arrival, maxLength);
            f in b.rgb[camera] || (f.count == b.counts[camera] + 1 == after.counts[camera] && e == Rgb(camera, f.stamp, f.image))
  {
  }

  lemma SubsetSize(a: set<int>, b: set<int>)
    requires a <= b
    ensures |a| <= |b|
  {
    assert b == a + (b - a);
  }

  lemma FreshWereSent(
    buffer: seq<Frame>, before: nat, floor: int, barrier: int, clock: int, events: seq<Event>, n: nat, camera: nat)
    requires n <= |events| && barrier <= floor
    requires forall f :: f in buffer && f.count > before ==> SentAmong(events[..n], camera, f)
    ensures |FreshStamps(buffer, before, floor, clock)| <= |StampsSent(events, camera, barrier, clock)|
  {
    forall x | x in FreshStamps(buffer, before, floor, clock)
      ensures x in StampsSent(events, camera, barrier, clock)
    {
      var f :| f in buffer && f.count > before && floor < f.stamp <= clock && f.stamp == x;
      SentAmongMore(events, n, camera, f);
      var i :| 0 <= i < |events| && events[i] == Rgb(camera, f.stamp, f.image);
      assert events[i] in events;
    }
    SubsetSize(FreshStamps(buffer, before, floor, clock), StampsSent(events, camera, barrier, clock));
  }

  lemma SomeNeedsFrames(
    q: Progress, r: Progress, barrier: int, consumed: seq<int>, minNew: nat, slop: int, result: Option<seq<Pair>>)
    requires SaysBetween(q, r, barrier, consumed, minNew, slop, result) && result.Some?
    ensures |r.seen.rgb| == |q.seen.counts| == |consumed|
    ensures forall c :: 0 <= c < |consumed| ==>
              PairCandidates(r.seen.rgb[c], q.seen.counts[c], Max(barrier, consumed[c]), r.clock, minNew) != []
  {
    var cands := FreshCandidates(r.seen.rgb, q.seen.counts, barrier, consumed, r.clock, minNew);
    forall c | 0 <= c < |consumed|
      ensures PairCandidates(r.seen.rgb[c], q.seen.counts[c], Max(barrier, consumed[c]), r.clock, minNew) != []
    {
      assert |cands[c]| > 0;
    }
  }

  /** When the chooser found a batch, enough frames of every camera were among the events of the wait. */
  lemma EnoughWereSent(
    p: Progress, env: Surroundings, maxLength: nat, r: Progress, barrier: int, consumed: seq<int>, minNew: nat, slop: int,
    frames: seq<Pair>)
    requires Decided(p, env, maxLength, r, barrier, consumed, minNew, slop, Some(frames))
    requires Shaped(p.seen, |consumed|) && forall c: nat :: c < |consumed| ==> OldFrames(p.seen, c)
    ensures EnoughSent(env.waiting, |consumed|, barrier, r.clock, Max(minNew, 1))
  {
    hide PairCandidates, Chosen, StampsSent, After, OldFrames, NothingUntil, BelowUntil;
    var q: Progress :|
      && SettlesAt(p, env, maxLength, barrier, q) && TookIn(q, env.waiting, maxLength, r)
      && SaysBetween(q, r, barrier, consumed, minNew, slop, Some(frames));
    SomeNeedsFrames(q, r, barrier, consumed, minNew, slop, Some(frames));
    forall c | 0 <= c < |consumed|
      ensures |StampsSent(env.waiting, c, barrier, r.clock)| >= Max(minNew, 1)
    {
      var posed := After(p, env.posing, maxLength);
      NewFramesWereSent(p, env.posing, maxLength, c);
      NewFramesWereSent(posed, env.settling[..q.spins - posed.spins], maxLength, c);
      NewFramesWereSent(q, env.waiting[..r.spins - q.spins], maxLength, c);
      var floor := Max(barrier, consumed[c]);
      CandidatesWhenEnough(r.seen.rgb[c], q.seen.counts[c], floor, r.clock, minNew);
      FreshWereSent(r.seen.rgb[c], q.seen.counts[c], floor, barrier, r.clock, env.waiting, r.spins - q.spins, c);
    }
  }

  // ---------------------------------------------------------------- the start-up wait

  /** A node nothing has reached yet. */
  ghost function Untouched(cameras: nat): Stand {
    Stand(Progress(Buffers(seq(cameras, i => []), seq(cameras, i => 0), seq(cameras, i => 0), seq(cameras, i => [])), 0, 0),
          seq(cameras, i => 0))
  }

  /** A fresh node as the start-up wait leaves it: after the first spin that made it ready. */
  ghost predicate Started(warmup: seq<WarmUp>, cameras: nat, bufferSize: nat, s: Stand) {
    exists k: nat ::
      && ReadyAt(warmup, cameras, k) && (forall j: nat :: j < k ==> !ReadyAt(warmup, cameras, j))
      && s == Stand(After(Untouched(cameras).at, EventsIn(warmup)[..k + 1], bufferSize), Untouched(cameras).consumed)
  }

  lemma StartedAt(warmup: seq<WarmUp>, cameras: nat, bufferSize: nat, s: Stand, k: nat)
    requires ReadyAt(warmup, cameras, k) && forall j: nat :: j < k ==> !ReadyAt(warmup, cameras, j)
    requires TookIn(Untouched(cameras).at, EventsIn(warmup), bufferSize, s.at) && s.at.spins == k + 1
    requires s.consumed == Untouched(cameras).consumed
    ensures Started(warmup, cameras, bufferSize, s)
  {
    hide After, ReadyAt;
  }

  /** The start-up wait after i spins, none of which made the node ready. */
  ghost predicate WarmedUp(warmup: seq<WarmUp>, cameras: nat, bufferSize: nat, i: nat, s: Stand) {
    && i <= |warmup| && s.at.spins == i && s.consumed == Untouched(cameras).consumed && bufferSize >= 8
    && TookIn(Untouched(cameras).at, EventsIn(warmup), bufferSize, s.at)
    && Steady(0, EventsIn(warmup)[..i]) && s.at.clock == Latest(0, EventsIn(warmup)[..i]) >= 0
    && Hears(s.at.seen, EventsIn(warmup)[..i], cameras)
    && (forall k: nat :: k < i ==> !ReadyAt(warmup, cameras, k))
    && forall k :: 0 <= k < |warmup| && warmup[k].event.Rgb? ==> warmup[k].event.camera < cameras
  }

  lemma WarmsFromNothing(warmup: seq<WarmUp>, cameras: nat, bufferSize: nat)
    requires bufferSize >= 8
    requires forall k :: 0 <= k < |warmup| && warmup[k].event.Rgb? ==> warmup[k].event.camera < cameras
    ensures WarmedUp(warmup, cameras, bufferSize, 0, Untouched(cameras))
  {
    hide Hears;
    var events := EventsIn(warmup);
    NothingHeard(Untouched(cameras).at.seen, cameras);
    NoEvents(0, events);
    TookInNothing(Untouched(cameras).at, events, bufferSize);
  }

  /** One more spin, in which the clock does not fall back. */
  lemma WarmsOn(warmup: seq<WarmUp>, cameras: nat, bufferSize: nat, i: nat, s: Stand, s': Stand)
    requires WarmedUp(warmup, cameras, bufferSize, i, s) && i < |warmup| && s'.consumed == s.consumed
    requires var e := warmup[i].event;
             && s'.at == Progress(AfterEvent(s.at.seen, e, Arrival(s.at.clock, i + 1), bufferSize),
                                  if e.Clock? then e.now else s.at.clock, i + 1)
             && s'.at.clock >= s.at.clock
    ensures |s'.at.seen.rgb| == cameras
    ensures var ready := warmup[i].service && (forall c :: 0 <= c < cameras ==> s'.at.seen.rgb[c] != []) && s'.at.clock > 0;
            if ready then GetsReady(warmup, cameras) && Started(warmup, cameras, bufferSize, s')
            else WarmedUp(warmup, cameras, bufferSize, i + 1, s')
    ensures Steady(0, EventsIn(warmup)) ==> s'.at.clock <= Latest(0, EventsIn(warmup))
  {
    var events := EventsIn(warmup);
    assert Untouched(cameras).at.spins == 0;
    hide AfterEvent, Steady, Latest, Hears, AllHeard, ReadyAt, Untouched, Started;
    SteadyStep(0, events, i);
    LatestStep(0, events, i);
    TookInOneMore(Untouched(cameras).at, events, bufferSize, s.at);
    HearsOneMore(s.at.seen, events, i, cameras, Arrival(s.at.clock, i + 1), bufferSize);
    EveryCameraHeard(s'.at.seen, events[..i + 1], cameras);
    WhetherReady(warmup, cameras, i);
    if Steady(0, events) {
      LatestGrows(0, events, i + 1);
    }
    if ReadyAt(warmup, cameras, i) {
      StartedAt(warmup, cameras, bufferSize, s', i);
    }
  }

  /** A spin in which the clock falls back ends the wait for good. */
  lemma NeverWarms(warmup: seq<WarmUp>, cameras: nat, bufferSize: nat, i: nat, s: Stand)
    requires WarmedUp(warmup, cameras, bufferSize, i, s) && i < |warmup|
    requires warmup[i].event.Clock? && warmup[i].event.now < s.at.clock
    ensures !GetsReady(warmup, cameras) && !Steady(0, EventsIn(warmup))
  {
    var events := EventsIn(warmup);
    hide Steady, Latest, ReadyAt, Hears;
    SteadyStep(0, events, i);
    RewoundIsNotReady(warmup, cameras, i);
    if Steady(0, events) {
      LatestGrows(0, events, i + 1);
    }
  }

  lemma NotReadyInTime(warmup: seq<WarmUp>, cameras: nat, bufferSize: nat, s: Stand)
    requires WarmedUp(warmup, cameras, bufferSize, |warmup|, s)
    ensures !GetsReady(warmup, cameras) && s.at.clock == Latest(0, EventsIn(warmup))
  {
    hide Steady, Latest, Hears;
    assert EventsIn(warmup)[..|warmup|] == EventsIn(warmup);
  }

  /** A camera's buffer shows whether it was heard. */
  ghost predicate ShowsHeard(buffer: seq<Frame>, lastStamp: int, events: seq<Event>, camera: nat) {
    && (buffer != [] <==> Heard(events, camera))
    && lastStamp >= 0 && (buffer == [] ==> lastStamp == 0)
  }

  ghost predicate Hears(b: Buffers, events: seq<Event>, cameras: nat) {
    && |b.rgb| == |b.counts| == |b.lastStamps| == |b.arrivals| == cameras
    && forall c: nat {:trigger b.rgb[c]} :: c < cameras ==> ShowsHeard(b.rgb[c], b.lastStamps[c], events, c)
  }

  lemma NothingHeard(b: Buffers, cameras: nat)
    requires |b.rgb| == |b.counts| == |b.lastStamps| == |b.arrivals| == cameras
    requires forall c :: 0 <= c < cameras ==> b.rgb[c] == [] && b.lastStamps[c] == 0
    ensures Hears(b, [], cameras)
  {
  }

  lemma HeardOneMore(events: seq<Event>, i: nat, c: nat)
    requires i < |events|
    ensures Heard(events[..i + 1], c) <==>
              Heard(events[..i], c) || (events[i].Rgb? && events[i].camera == c && events[i].stamp > 0)
  {
    var part, more := events[..i], events[..i + 1];
    assert more[i] == events[i] && forall k :: 0 <= k < i ==> more[k] == part[k];
  }

  lemma HearsOneMore(b: Buffers, events: seq<Event>, i: nat, cameras: nat, arrival: Arrival, maxLength: nat)
    requires i < |events| && Hears(b, events[..i], cameras) && maxLength >= 8
    requires events[i].Rgb? ==> events[i].camera < cameras
    ensures Hears(AfterEvent(b, events[i], arrival, maxLength), events[..i + 1], cameras)
  {
    var part, more, after := events[..i], events[..i + 1], AfterEvent(b, events[i], arrival, maxLength);
    forall c: nat {:trigger after.rgb[c]} | c < cameras
      ensures ShowsHeard(after.rgb[c], after.lastStamps[c], more, c)
    {
      HeardOneMore(events, i, c);
      hide Heard;
      assert ShowsHeard(b.rgb[c], b.lastStamps[c], part, c);
    }
  }

  lemma EveryCameraHeard(b: Buffers, events: seq<Event>, cameras: nat)
    requires Hears(b, events, cameras)
    ensures |b.rgb| == cameras
    ensures AllHeard(events, cameras) <==> forall c :: 0 <= c < cameras ==> b.rgb[c] != []
  {
    hide Heard;
    forall c: nat {:trigger b.rgb[c]} {:trigger Heard(events, c)} | c < cameras
      ensures b.rgb[c] != [] <==> Heard(events, c)
    {
      assert ShowsHeard(b.rgb[c], b.lastStamps[c], events, c);
    }
  }

  lemma WhetherReady(warmup: seq<WarmUp>, cameras: nat, i: nat)
    requires i < |warmup| && Steady(0, EventsIn(warmup)[..i + 1])
    ensures ReadyAt(warmup, cameras, i) <==>
              warmup[i].service && Latest(0, EventsIn(warmup)[..i + 1]) > 0 && AllHeard(EventsIn(warmup)[..i + 1], cameras)
  {
  }

  /** Once the clock has fallen back, no later spin can make the node ready. */
  lemma RewoundIsNotReady(warmup: seq<WarmUp>, cameras: nat, i: nat)
    requires i < |warmup| && !Steady(0, EventsIn(warmup)[..i + 1])
    ensures forall k: nat :: k >= i ==> !ReadyAt(warmup, cameras, k)
  {
    hide Steady, AllHeard;
    var events := EventsIn(warmup);
    forall k: nat {:trigger ReadyAt(warmup, cameras, k)} | k >= i
      ensures !ReadyAt(warmup, cameras, k)
    {
      if k < |warmup| {
        StaysRewound(events, i, k);
      }
    }
  }

  lemma StaysRewound(events: seq<Event>, i: nat, k: nat)
    requires i <= k < |events| && !Steady(0, events[..i + 1])
    ensures !Steady(0, events[..k + 1])
  {
    var part, more := events[..i + 1], events[..k + 1];
    assert forall m :: 0 <= m < |part| ==> part[m] == more[m];
  }
}
