/**
 What the chooser's limits mean for the node: from four cameras on any node that has been
 started up can time out although the frames it was waiting for are all there.
 */
module CaptureMiss {
  import opened Options
  import opened BatchChooser
  import opened CaptureEvents
  import opened CaptureSteps
  import opened CaptureNode

  // ---------------------------------------------------------------- frames as they are sent

  /** The frames of one camera among the events, in order. */
  ghost function Sent(events: seq<Event>, camera: nat): seq<Pair> {
    if events == [] then []
    else
      var n := |events| - 1;
      Sent(events[..n], camera) + FrameOf(events[n], camera)
  }

  function FrameOf(e: Event, camera: nat): seq<Pair> {
    if e.Rgb? && e.camera == camera then [Pair(e.stamp, e.image)] else []
  }

  /** The frames of one camera, one per spin. */
  function Sends(camera: nat, items: seq<Pair>): seq<Event> {
    seq(|items|, i requires 0 <= i < |items| => Rgb(camera, items[i].stamp, items[i].image))
  }

  /** All frames of the first camera, then all of the next, and so on. */
  function SendsAll(cands: Candidates): seq<Event> {
    if cands == [] then [] else
      var n := |cands| - 1;
      SendsAll(cands[..n]) + Sends(n, cands[n])
  }

  lemma {:induction false} SentAppend(a: seq<Event>, b: seq<Event>, camera: nat)
    ensures Sent(a + b, camera) == Sent(a, camera) + Sent(b, camera)
  {
    if b == [] {
      assert a + b == a;
    } else {
      var n := |b| - 1;
      SentAppend(a, b[..n], camera);
      assert (a + b)[..|a + b| - 1] == a + b[..n] && (a + b)[|a + b| - 1] == b[n];
      var last := FrameOf(b[n], camera);
      assert Sent(b, camera) == Sent(b[..n], camera) + last;
      assert Sent(a + b, camera) == Sent(a + b[..n], camera) + last;
    }
  }

  lemma {:induction false} SentOfSends(camera: nat, items: seq<Pair>, c: nat)
    ensures Sent(Sends(camera, items), c) == if c == camera then items else []
  {
    if items != [] {
      var n := |items| - 1;
      SentOfSends(camera, items[..n], c);
      assert Sends(camera, items)[..n] == Sends(camera, items[..n]);
      assert items == items[..n] + [items[n]];
    }
  }

  lemma {:induction false} SentOfSendsAll(cands: Candidates, c: nat)
    ensures Sent(SendsAll(cands), c) == if c < |cands| then cands[c] else []
  {
    if cands != [] {
      var n := |cands| - 1;
      SentOfSendsAll(cands[..n], c);
      SentOfSends(n, cands[n], c);
      SentAppend(SendsAll(cands[..n]), Sends(n, cands[n]), c);
    }
  }

  lemma {:induction false} OnlyFrames(cands: Candidates)
    ensures forall i :: 0 <= i < |SendsAll(cands)| ==> SendsAll(cands)[i].Rgb? && SendsAll(cands)[i].camera < |cands|
  {
    if cands != [] {
      OnlyFrames(cands[..|cands| - 1]);
    }
  }

  // ---------------------------------------------------------------- the buffers they fill

  /** The frames a camera's buffer makes of these, numbered on from `count`. */
  ghost function Numbered(count: nat, items: seq<Pair>): seq<Frame> {
    seq(|items|, i requires 0 <= i < |items| => Frame(count + 1 + i, items[i].stamp, items[i].image))
  }

  /** All older frames come first, then exactly these. */
  ghost predicate EndsIn(buffer: seq<Frame>, count: nat, items: seq<Pair>) {
    var k := |buffer| - |items|;
    k >= 0 && buffer[k..] == Numbered(count, items) && forall i :: 0 <= i < k ==> buffer[i].count <= count
  }

  lemma EndsInOneMore(buffer: seq<Frame>, count: nat, items: seq<Pair>, p: Pair, maxLength: nat)
    requires EndsIn(buffer, count, items) && |items| < maxLength
    ensures EndsIn(Appended(buffer, Frame(count + |items| + 1, p.stamp, p.image), maxLength), count, items + [p])
  {
    var f := Frame(count + |items| + 1, p.stamp, p.image);
    var longer, k := buffer + [f], |buffer| - |items|;
    assert Numbered(count, items + [p]) == Numbered(count, items) + [f];
    assert longer[k..] == buffer[k..] + [f];
    if |longer| > maxLength {
      assert longer[1..][k - 1..] == longer[k..];
    }
  }

  /** Stamps that a camera accepts one after the other. */
  ghost predicate Accepted(items: seq<Pair>, lastStamp: int) {
    && (forall i :: 0 <= i < |items| ==> items[i].stamp > lastStamp)
    && (forall i, j :: 0 <= i < j < |items| ==> items[i].stamp < items[j].stamp)
  }

  /** What the camera's part of the buffers has become after these frames. */
  ghost predicate Filled(b: Buffers, b': Buffers, camera: nat, items: seq<Pair>)
    requires Shaped(b, |b.rgb|) && Shaped(b', |b.rgb|) && camera < |b.rgb|
  {
    && EndsIn(b'.rgb[camera], b.counts[camera], items) && b'.counts[camera] == b.counts[camera] + |items|
    && b'.lastStamps[camera] == if items == [] then b.lastStamps[camera] else items[|items| - 1].stamp
  }

  lemma FilledByOne(b: Buffers, b': Buffers, camera: nat, items: seq<Pair>, e: Event, arrival: Arrival, maxLength: nat)
    requires Shaped(b, |b.rgb|) && Shaped(b', |b.rgb|) && camera < |b.rgb| && Filled(b, b', camera, items)
    requires e.Rgb? ==> e.camera < |b.rgb|
    requires var p := FrameOf(e, camera);
             Accepted(items + p, b.lastStamps[camera]) && |items + p| <= maxLength
    ensures var after := AfterEvent(b', e, arrival, maxLength);
            var p := FrameOf(e, camera);
            Shaped(after, |b.rgb|) && Filled(b, after, camera, items + p)
  {
    hide EndsIn;
    if e.Rgb? && e.camera == camera {
      var p := Pair(e.stamp, e.image);
      var more := items + [p];
      assert more[|items|] == p;
      if items != [] {
        assert more[|items| - 1] == items[|items| - 1];
      }
      EndsInOneMore(b'.rgb[camera], b.counts[camera], items, p, maxLength);
    } else {
      assert items + [] == items;
    }
  }

  /** After any events that a camera's buffer can hold, it ends in exactly the frames sent. */
  lemma {:induction false} BuffersFill(p: Progress, events: seq<Event>, maxLength: nat, camera: nat)
    requires Shaped(p.seen, |p.seen.rgb|) && camera < |p.seen.rgb| && OldFrames(p.seen, camera)
    requires EventsFor(events, |p.seen.rgb|)
    requires Accepted(Sent(events, camera), p.seen.lastStamps[camera]) && |Sent(events, camera)| <= maxLength
    ensures var q := After(p, events, maxLength);
            Shaped(q.seen, |p.seen.rgb|) && Filled(p.seen, q.seen, camera, Sent(events, camera))
  {
    if events != [] {
      hide EndsIn, AfterEvent;
      var n := |events| - 1;
      var items, more := Sent(events[..n], camera), Sent(events, camera);
      assert items <= more;
      assert forall i :: 0 <= i < |items| ==> items[i] == more[i];
      BuffersFill(p, events[..n], maxLength, camera);
      var q := After(p, events[..n], maxLength);
      FilledByOne(p.seen, q.seen, camera, items, events[n], Arrival(q.clock, q.spins + 1), maxLength);
    }
  }

  // ---------------------------------------------------------------- the candidates they become

  lemma Associates<T>(x: seq<T>, y: seq<T>, z: seq<T>)
    ensures x + (y + z) == (x + y) + z
  {
  }

  lemma FreshStep(f: Frame, rest: seq<Frame>, before: nat, floor: int, clock: int)
    ensures FreshFrames([f] + rest, before, floor, clock)
         == (if f.count > before && floor < f.stamp <= clock then [f] else []) + FreshFrames(rest, before, floor, clock)
  {
    assert ([f] + rest)[1..] == rest;
  }

  lemma {:induction false} FreshAppend(a: seq<Frame>, b: seq<Frame>, before: nat, floor: int, clock: int)
    ensures FreshFrames(a + b, before, floor, clock)
         == FreshFrames(a, before, floor, clock) + FreshFrames(b, before, floor, clock)
  {
    if a == [] {
      assert a + b == b;
    } else {
      hide FreshFrames;
      var f, rest := a[0], a[1..];
      FreshAppend(rest, b, before, floor, clock);
      FreshStep(f, rest, before, floor, clock);
      FreshStep(f, rest + b, before, floor, clock);
      assert a == [f] + rest && a + b == [f] + (rest + b);
      Associates(if f.count > before && floor < f.stamp <= clock then [f] else [],
                 FreshFrames(rest, before, floor, clock), FreshFrames(b, before, floor, clock));
    }
  }

  lemma {:induction false} AllFresh(a: seq<Frame>, before: nat, floor: int, clock: int)
    requires forall i :: 0 <= i < |a| ==> a[i].count > before && floor < a[i].stamp <= clock
    ensures FreshFrames(a, before, floor, clock) == a
  {
    if a != [] {
      AllFresh(a[1..], before, floor, clock);
      assert a == [a[0]] + a[1..];
    }
  }

  lemma {:induction false} NoneFresh(a: seq<Frame>, before: nat, floor: int, clock: int)
    requires forall i :: 0 <= i < |a| ==> a[i].count <= before || a[i].stamp > clock
    ensures FreshFrames(a, before, floor, clock) == []
  {
    if a != [] {
      NoneFresh(a[1..], before, floor, clock);
    }
  }

  ghost function StampSet(a: seq<Frame>): set<int> { set f | f in a :: f.stamp }

  lemma StampSetGrows(a: seq<Frame>, f: Frame)
    requires forall i :: 0 <= i < |a| ==> a[i].stamp < f.stamp
    ensures StampSet(a + [f]) == StampSet(a) + {f.stamp} && f.stamp !in StampSet(a)
  {
  }

  ghost predicate Rising(a: seq<Frame>) {
    forall i, j :: 0 <= i < j < |a| ==> a[i].stamp < a[j].stamp
  }

  lemma RisingWithoutLast(a: seq<Frame>)
    requires Rising(a) && a != []
    ensures var n := |a| - 1;
            && a == a[..n] + [a[n]] && Rising(a[..n])
            && forall i :: 0 <= i < n ==> a[..n][i].stamp < a[n].stamp
  {
  }

  lemma {:induction false} StampCount(a: seq<Frame>)
    requires Rising(a)
    ensures |StampSet(a)| == |a|
  {
    if a == [] {
      assert StampSet(a) == {};
    } else {
      RisingWithoutLast(a);
      hide Rising, StampSet;
      var before, last := a[..|a| - 1], a[|a| - 1];
      StampCount(before);
      StampSetGrows(before, last);
    }
  }

  lemma NewerAreFresh(buffer: seq<Frame>, count: nat, items: seq<Pair>, floor: int, clock: int)
    requires EndsIn(buffer, count, items)
    ensures FreshFrames(buffer, count, floor, clock) == FreshFrames(Numbered(count, items), count, floor, clock)
  {
    var k := |buffer| - |items|;
    hide FreshFrames, Numbered;
    assert buffer == buffer[..k] + buffer[k..];
    FreshAppend(buffer[..k], buffer[k..], count, floor, clock);
    NoneFresh(buffer[..k], count, floor, clock);
  }

  /** Once the clock has passed them, the candidates are exactly the frames sent. */
  lemma SentBecomeCandidates(buffer: seq<Frame>, count: nat, items: seq<Pair>, floor: int, clock: int, minNew: nat)
    requires EndsIn(buffer, count, items) && Accepted(items, floor) && |items| >= minNew
    requires forall i :: 0 <= i < |items| ==> items[i].stamp <= clock
    ensures PairCandidates(buffer, count, floor, clock, minNew) == items
  {
    hide FreshFrames, EndsIn;
    var newer := Numbered(count, items);
    NewerAreFresh(buffer, count, items, floor, clock);
    AllFresh(newer, count, floor, clock);
    StampCount(newer);
    assert PairsOf(newer) == items;
  }

  /** Before, there are no candidates. */
  lemma FutureFramesAreNone(buffer: seq<Frame>, count: nat, items: seq<Pair>, floor: int, clock: int, minNew: nat)
    requires EndsIn(buffer, count, items) && forall i :: 0 <= i < |items| ==> items[i].stamp > clock
    ensures PairCandidates(buffer, count, floor, clock, minNew) == []
  {
    NewerAreFresh(buffer, count, items, floor, clock);
    NoneFresh(Numbered(count, items), count, floor, clock);
    hide FreshFrames, EndsIn;
  }

  // ---------------------------------------------------------------- a call that misses its batch

  /** A node at rest whose stamps and clock do not exceed the bound. */
  ghost predicate AtRest(q: Progress, cameras: nat, consumed: seq<int>, bound: int) {
    && Shaped(q.seen, cameras) && |consumed| == cameras && q.clock <= bound
    && forall c: nat :: c < cameras ==> OldFrames(q.seen, c) && q.seen.lastStamps[c] <= bound && consumed[c] <= bound
  }

  /** Frames from after the bound, all of them announced before the clock moves on to `last`. */
  function Late(cands: Candidates, last: int): seq<Event> {
    SendsAll(cands) + [Clock(last)]
  }

  ghost predicate CanBeSent(cands: Candidates, bound: nat, minNew: nat, maxLength: nat, last: int) {
    && CanBeHandedOver(cands, bound, minNew)
    && forall c :: 0 <= c < |cands| ==>
         |cands[c]| <= maxLength && forall i :: 0 <= i < |cands[c]| ==> cands[c][i].stamp <= last
  }

  lemma SentLate(cands: Candidates, last: int, c: nat)
    requires c < |cands|
    ensures Sent(Late(cands, last), c) == cands[c]
  {
    SentAppend(SendsAll(cands), [Clock(last)], c);
    SentOfSendsAll(cands, c);
    assert Sent([Clock(last)], c) == [];
    hide Sent;
  }

  lemma SentSoFar(cands: Candidates, last: int, n: nat, c: nat)
    requires n <= |Late(cands, last)| && c < |cands|
    ensures Sent(Late(cands, last)[..n], c) <= cands[c]
    ensures n == |Late(cands, last)| ==> Sent(Late(cands, last)[..n], c) == cands[c]
  {
    var all := Late(cands, last);
    hide Sent, Late;
    SentLate(cands, last, c);
    assert all == all[..n] + all[n..];
    SentAppend(all[..n], all[n..], c);
    if n == |all| {
      assert all[..n] == all;
    }
  }

  lemma LateEvents(cands: Candidates, last: int, n: nat)
    requires n <= |Late(cands, last)|
    ensures EventsFor(Late(cands, last)[..n], |cands|)
  {
    OnlyFrames(cands);
  }

  lemma {:induction false} ClockStands(p: Progress, events: seq<Event>, maxLength: nat)
    requires forall e :: e in events ==> e.Rgb?
    ensures After(p, events, maxLength).clock == p.clock
  {
    if events != [] {
      ClockStands(p, events[..|events| - 1], maxLength);
    }
  }

  lemma ClockUntilLast(q: Progress, cands: Candidates, last: int, n: nat, maxLength: nat)
    requires n <= |Late(cands, last)|
    ensures After(q, Late(cands, last)[..n], maxLength).clock == if n < |Late(cands, last)| then q.clock else last
  {
    hide AfterEvent;
    OnlyFrames(cands);
    var all := Late(cands, last);
    if n < |all| {
      ClockStands(q, all[..n], maxLength);
    } else {
      assert all[..n] == all;
    }
  }

  lemma PartIsNew(items: seq<Pair>, whole: seq<Pair>, bound: int, minNew: nat, low: int)
    requires items <= whole && Fresh(whole, bound, minNew) && low <= bound
    ensures Accepted(items, low) && |items| <= |whole| && forall i :: 0 <= i < |items| ==> items[i].stamp > bound
  {
    assert forall i :: 0 <= i < |items| ==> items[i] == whole[i];
  }

  /** What the chooser gets to see while such frames come in: nothing before the last event, then exactly them. */
  lemma WhatTheChooserSees(
    q: Progress, cands: Candidates, last: int, maxLength: nat, r: Progress, barrier: int, consumed: seq<int>, bound: nat,
    minNew: nat, c: nat)
    requires AtRest(q, |cands|, consumed, bound) && barrier <= bound && c < |cands|
    requires CanBeSent(cands, bound, minNew, maxLength, last) && TookIn(q, Late(cands, last), maxLength, r)
    ensures |r.seen.rgb| == |cands|
    ensures PairCandidates(r.seen.rgb[c], q.seen.counts[c], Max(barrier, consumed[c]), r.clock, minNew)
         == if r.spins == q.spins + |Late(cands, last)| then cands[c] else []
  {
    hide Late, EndsIn, PairCandidates, After, Sent;
    var n := r.spins - q.spins;
    var part := Late(cands, last)[..n];
    var items, floor := Sent(part, c), Max(barrier, consumed[c]);
    SentSoFar(cands, last, n, c);
    LateEvents(cands, last, n);
    ClockUntilLast(q, cands, last, n, maxLength);
    assert Fresh(cands[c], bound, minNew);
    PartIsNew(items, cands[c], bound, minNew, floor);
    PartIsNew(items, cands[c], bound, minNew, q.seen.lastStamps[c]);
    hide Fresh, Accepted;
    BuffersFill(q, part, maxLength, c);
    if n == |Late(cands, last)| {
      SentBecomeCandidates(r.seen.rgb[c], q.seen.counts[c], items, floor, r.clock, minNew);
    } else {
      FutureFramesAreNone(r.seen.rgb[c], q.seen.counts[c], items, floor, r.clock, minNew);
    }
  }

  function Highest(s: seq<int>): (m: nat)
    ensures forall x :: x in s ==> x <= m
  {
    if s == [] then 0
    else
      var m := Highest(s[1..]);
      assert s == [s[0]] + s[1..];
      if s[0] > m then s[0] else m
  }

  /** A call at rest: one clock reading that settles the node, then these frames. */
  function LateCall(cands: Candidates, settledAt: int, last: int): Surroundings {
    Surroundings([], true, [Clock(settledAt)], Late(cands, last))
  }

  lemma SettlesAtRest(p: Progress, env: Surroundings, t: int, maxLength: nat, barrier: int, q: Progress,
                      cameras: nat, consumed: seq<int>, bound: nat)
    requires AtRest(p, cameras, consumed, bound) && t <= bound && env.posing == [] && env.settling == [Clock(t)]
    requires SettlesAt(p, env, maxLength, barrier, q)
    ensures AtRest(q, cameras, consumed, bound) && q.seen == p.seen
  {
    var events := [Clock(t)];
    assert events[..1] == events && events[..0] == [];
    assert After(p, [], maxLength) == p;
  }

  lemma SeesNothing(cands: Candidates, seen: seq<seq<Pair>>, slop: int, result: Option<seq<Pair>>)
    requires |seen| == |cands| > 0 && (forall c :: 0 <= c < |seen| ==> seen[c] == []) && ChooserSays(seen, slop, result)
    ensures result.None?
  {
    hide Chosen;
    assert seen[0] == [];
  }

  lemma SpoilerIsNeverChosen(n: nat, slop: int, bound: nat, minNew: nat, result: Option<seq<Pair>>)
    requires n >= 4 && slop >= 2 && ChooserSays(Spoiler(n, slop, bound, minNew), slop, result)
    ensures result.None?
  {
    hide Winner, Select, Span, Spoiler, SpoilerBest, IsBatch, CanBeHandedOver;
    SpoilerHasFrames(n, slop, bound, minNew);
    var a :| Winner(Spoiler(n, slop, bound, minNew), a)
          && result == if Span(Select(Spoiler(n, slop, bound, minNew), a)) > slop then None
                       else Some(Select(Spoiler(n, slop, bound, minNew), a));
    WinnerMissesTheBest(n, slop, bound, minNew, a);
  }

  /** Whenever the chooser is asked during such a call it finds nothing, and in the end it has seen all frames. */
  lemma NothingIsChosen(
    p: Progress, n: nat, settledAt: int, last: int, maxLength: nat, r: Progress, barrier: int, consumed: seq<int>,
    bound: nat, minNew: nat, slop: int, result: Option<seq<Pair>>)
    requires n >= 4 && slop >= 2 && settledAt <= bound && barrier <= bound && AtRest(p, n, consumed, bound)
    requires CanBeSent(Spoiler(n, slop, bound, minNew), bound, minNew, maxLength, last)
    requires Decided(p, LateCall(Spoiler(n, slop, bound, minNew), settledAt, last), maxLength, r, barrier, consumed,
                     minNew, slop, result)
    ensures result.None? && |r.seen.rgb| == n && r.clock == last
    ensures FreshCandidates(r.seen.rgb, p.seen.counts, barrier, consumed, r.clock, minNew) == Spoiler(n, slop, bound, minNew)
  {
    hide TookIn, ChooserSays, PairCandidates, AtRest, CanBeSent, Late, SettlesAt, NothingUntil, After;
    var cands: Candidates := Spoiler(n, slop, bound, minNew);
    assert |cands| == n;
    hide Spoiler;
    var env := LateCall(cands, settledAt, last);
    var q: Progress :|
      && SettlesAt(p, env, maxLength, barrier, q) && TookIn(q, env.waiting, maxLength, r)
      && q.spins < r.spins && (result.None? ==> r.spins == q.spins + |env.waiting|)
      && SaysBetween(q, r, barrier, consumed, minNew, slop, result);
    SettlesAtRest(p, env, settledAt, maxLength, barrier, q, n, consumed, bound);
    SaidOf(q, r, barrier, consumed, minNew, slop, result);
    var seen := FreshCandidates(r.seen.rgb, q.seen.counts, barrier, consumed, r.clock, minNew);
    var all := r.spins == q.spins + |Late(cands, last)|;
    forall c: nat | c < n
      ensures |r.seen.rgb| == n && seen[c] == if all then cands[c] else []
    {
      WhatTheChooserSees(q, cands, last, maxLength, r, barrier, consumed, bound, minNew, c);
    }
    if all {
      assert seen == cands;
      ClockAtLast(q, cands, last, maxLength, r);
      SpoilerIsNeverChosen(n, slop, bound, minNew, result);
    } else {
      SeesNothing(cands, seen, slop, result);
    }
  }

  lemma ClockAtLast(q: Progress, cands: Candidates, last: int, maxLength: nat, r: Progress)
    requires TookIn(q, Late(cands, last), maxLength, r) && r.spins == q.spins + |Late(cands, last)|
    ensures r.clock == last
  {
    ClockUntilLast(q, cands, last, |Late(cands, last)|, maxLength);
  }

  lemma SaidOf(
    q: Progress, r: Progress, barrier: int, consumed: seq<int>, minNew: nat, slop: int, result: Option<seq<Pair>>)
    requires SaysBetween(q, r, barrier, consumed, minNew, slop, result)
    ensures |r.seen.rgb| == |q.seen.counts| == |consumed|
    ensures ChooserSays(FreshCandidates(r.seen.rgb, q.seen.counts, barrier, consumed, r.clock, minNew), slop, result)
  {
  }

  /** So whatever such a call gives, it is a time-out with all frames there. */
  lemma LateCallFails(
    t: Tuning, s: Stand, n: nat, settledAt: int, last: int, bound: nat, outcome: Outcome, s': Stand)
    requires n >= 4 && t.slopNs >= 2 && AtRest(s.at, n, s.consumed, bound) && s.at.clock > 0
    requires s.at.clock + t.settleNs <= settledAt <= bound
    requires CanBeSent(Spoiler(n, t.slopNs, bound, t.minNew), bound, t.minNew, t.bufferSize, last)
    requires CallGives(t, s, LateCall(Spoiler(n, t.slopNs, bound, t.minNew), settledAt, last), outcome, s')
    ensures outcome.Failed? && |s'.at.seen.rgb| == n && s'.consumed == s.consumed && |s.consumed| == n && s'.at.clock == last
    ensures FreshCandidates(s'.at.seen.rgb, s.at.seen.counts, s.at.clock + t.settleNs, s.consumed, s'.at.clock, t.minNew)
         == Spoiler(n, t.slopNs, bound, t.minNew)
  {
    hide Spoiler, CanBeSent, AtRest, Decided, SettlesAt, FreshCandidates;
    var env := LateCall(Spoiler(n, t.slopNs, bound, t.minNew), settledAt, last);
    SettlesOnce(t, s.at, env, settledAt, s'.at);
    RestedCounts(s.at, n, s.consumed, bound);
    NothingIsChosen(s.at, n, settledAt, last, t.bufferSize, s'.at, s.at.clock + t.settleNs, s.consumed, bound, t.minNew, t.slopNs,
                    if outcome.Captured? then Some(outcome.frames) else None);
  }

  lemma RestedCounts(q: Progress, cameras: nat, consumed: seq<int>, bound: int)
    requires AtRest(q, cameras, consumed, bound)
    ensures |q.seen.counts| == |consumed| == cameras
  {
  }

  /** One clock reading at the barrier or past it is enough to settle. */
  lemma SettlesOnce(t: Tuning, p: Progress, env: Surroundings, settledAt: int, q: Progress)
    requires p.clock > 0 && env.poseAccepted && env.posing == [] && env.settling == [Clock(settledAt)]
    requires p.clock + t.settleNs <= settledAt
    ensures After(p, env.posing, t.bufferSize) == p && !StopsEarly(t, p, env, q)
  {
    var events := [Clock(settledAt)];
    assert events[..1] == events && events[..0] == [];
    assert After(p, [], t.bufferSize) == p;
    assert After(p, events, t.bufferSize).clock == settledAt;
  }

  lemma SpoilerCanBeSent(n: nat, slop: int, bound: nat, minNew: nat, maxLength: nat, last: int)
    requires n >= 4 && slop >= 2 && minNew + 2 <= maxLength
    requires forall x :: x in AllStamps(Spoiler(n, slop, bound, minNew)) ==> x <= last
    ensures CanBeSent(Spoiler(n, slop, bound, minNew), bound, minNew, maxLength, last)
  {
    var cands: Candidates := Spoiler(n, slop, bound, minNew);
    SpoilerHasFrames(n, slop, bound, minNew);
    forall c | 0 <= c < n
      ensures |cands[c]| <= maxLength
    {
      SpoilerSize(n, slop, bound, minNew, c);
    }
    hide Spoiler, CanBeHandedOver, AllStamps;
    forall c, i | 0 <= c < n && 0 <= i < |cands[c]|
      ensures cands[c][i].stamp <= last
    {
      AllStampsAreAnchors(cands, cands[c][i].stamp);
    }
  }

  lemma SpoilerSize(n: nat, slop: int, bound: nat, minNew: nat, c: nat)
    requires c < n
    ensures |Spoiler(n, slop, bound, minNew)[c]| <= minNew + 2
  {
  }

  lemma LateCallIsSteady(now: int, cands: Candidates, t: int, last: int)
    requires now <= t <= last
    ensures SteadyCall(now, LateCall(cands, t, last)) && EventsOf(LateCall(cands, t, last), |cands|)
  {
    var env := LateCall(cands, t, last);
    OnlyFrames(cands);
    LateEvents(cands, last, |env.waiting|);
    assert env.waiting[..|env.waiting|] == env.waiting;
    assert [Clock(t)][..0] == [];
    assert Latest(now, []) == now && Latest(now, [Clock(t)]) == t;
    assert forall i :: 0 <= i < |env.waiting| && env.waiting[i].Clock? ==> i == |SendsAll(cands)|;
  }

  lemma RestingNode(node: FiveCameraCapture, bound: int)
    requires node.Valid() && node.now <= bound
    requires forall x :: x in node.lastRgbStamp || x in node.lastConsumed ==> x <= bound
    ensures AtRest(node.Standing(), node.cameras, node.lastConsumed, bound)
  {
    forall c: nat | c < node.cameras
      ensures OldFrames(node.Seen(), c) && node.lastRgbStamp[c] <= bound && node.lastConsumed[c] <= bound
    {
      assert BufferOk(node.rgb[c], node.rgbCount[c], node.lastRgbStamp[c], node.arrivals[c], node.lastClockNs, node.spins);
      assert node.lastRgbStamp[c] in node.lastRgbStamp && node.lastConsumed[c] in node.lastConsumed;
    }
  }

  /**
   With at most three cameras, a limit of one nanosecond or frames twice the limit apart, a
   node that times out after settling never had a batch within the limit before it.
   */
  lemma NoMissWhenExact(cands: Candidates, slop: int, b: seq<Pair>)
    requires ChooserSays(cands, slop, None) && IsBatch(cands, b) && |b| > 0
    requires |cands| <= 3 || slop <= 1 || Apart(cands, 2 * slop)
    ensures Span(b) > slop
  {
    hide Span, Chosen, Apart;
    assert AllCamerasHaveFrames(cands) by {
      forall c | 0 <= c < |cands|
        ensures |cands[c]| > 0
      {
        BatchMember(cands, b, c);
      }
    }
    if |cands| <= 3 || slop <= 1 {
      assert Apart(cands, 0) by { ApartByNothing(cands); }
      FoundWhenSpaced(cands, slop, 0, None);
    } else {
      FoundWhenSpaced(cands, slop, 2 * slop, None);
    }
  }

  lemma ApartByNothing(cands: Candidates)
    ensures Apart(cands, 0)
  {
  }

  /** What is prepared for a call: frames from after the bound, and when the clock is read. */
  ghost predicate Prepared(node: FiveCameraCapture, env: Surroundings, t: int, bound: nat, last: int, best: seq<Pair>)
    reads node
  {
    var cands := Spoiler(node.cameras, node.slopNs, bound, node.minNewRgb);
    && env == LateCall(cands, t, last) && AtRest(node.Standing(), node.cameras, node.lastConsumed, bound)
    && node.now <= t <= bound && node.now + node.settleNs <= t <= last
    && CanBeSent(cands, bound, node.minNewRgb, node.bufferSize, last)
    && AllCamerasHaveFrames(cands) && IsBatch(cands, best) && |best| > 0 && Span(best) <= node.slopNs
  }

  method Prepare(node: FiveCameraCapture) returns (env: Surroundings, ghost t: int, ghost bound: nat, ghost last: int, ghost best: seq<Pair>)
    requires node.Valid() && node.cameras >= 4 && node.slopNs >= 2 && node.minNewRgb + 2 <= node.bufferSize
    ensures Prepared(node, env, t, bound, last, best)
    ensures EventsOf(env, node.cameras) && env.poseAccepted && SteadyCall(node.now, env)
  {
    var settled := Max(node.now, node.now + node.settleNs);
    var high: nat := Highest([settled] + node.lastRgbStamp + node.lastConsumed);
    t, bound := settled, high;
    assert forall x :: x in node.lastRgbStamp || x in node.lastConsumed ==>
             x in [settled] + node.lastRgbStamp + node.lastConsumed;
    var n, slop, minNew := node.cameras, node.slopNs, node.minNewRgb;
    var cands: seq<seq<Pair>> := Spoiler(n, slop, high, minNew);
    var end := Max(settled, Highest(AllStamps(cands)));
    last := end;
    env := LateCall(cands, settled, end);
    hide AllStamps, Highest, CanBeSent, IsBatch, Span, SpoilerBest, AllCamerasHaveFrames;
    SpoilerCanBeSent(n, slop, bound, minNew, node.bufferSize, last);
    best := SpoilerBest(n, slop, bound);
    SpoilerBestFits(n, slop, bound, minNew);
    SpoilerHasFrames(n, slop, bound, minNew);
    LateCallIsSteady(node.now, cands, t, last);
    RestingNode(node, bound);
  }

  /**
   A started node with four or more cameras and a limit of two nanoseconds or more: there
   are surroundings, with a clock that never falls back, in which its call settles and then
   times out although the frames that came in after settling hold a batch within the limit.
   */
  method MissesItsBatch(node: FiveCameraCapture) returns (env: Surroundings, outcome: Outcome, ghost best: seq<Pair>)
    requires node.Valid() && node.cameras >= 4 && node.slopNs >= 2 && node.minNewRgb + 2 <= node.bufferSize
    requires node.now == node.lastClockNs > 0
    modifies node
    ensures node.Valid() && outcome.Failed? && node.barrierNs <= node.lastClockNs
    ensures EventsOf(env, node.cameras) && env.poseAccepted && SteadyCall(old(node.now), env)
    ensures forall e :: e in env.posing + env.settling ==> !e.Rgb?
    ensures var cands := node.Candidates(old(node.rgbCount));
            AllCamerasHaveFrames(cands) && IsBatch(cands, best) && |best| > 0 && Span(best) <= node.slopNs
  {
    hide BufferOk, HistoryOk, Spoiler, Decided, AtRest, ChooserSays, CanBeSent, SteadyCall, FreshCandidates, After, IsBatch, Span, CallGives;
    hide DeliveredAfter, Late, PairCandidates, AllCamerasHaveFrames, EventsOf, EventsFor;
    ghost var t, bound, last;
    env, t, bound, last, best := Prepare(node);
    ghost var rest := node.Between();
    outcome := node.Capture(env);
    SettlesOnce(node.Tuned(), rest.at, env, t, node.Standing());
    LateCallFails(node.Tuned(), rest, node.cameras, t, last, bound, outcome, node.Between());
  }
}
