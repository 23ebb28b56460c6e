/**
 What can reach the capture node, one event per spin, and when its simulation clock never
 runs backwards over lists of such events.
 */
module CaptureEvents {
  /** What one spin may deliver. */
  datatype Event = Quiet | Clock(now: int) | Rgb(camera: nat, stamp: int, image: int)

  /** Everything that happens during one capture call. */
  datatype Surroundings = Surroundings(posing: seq<Event>, poseAccepted: bool, settling: seq<Event>, waiting: seq<Event>)

  /** One spin of the start-up wait: what comes in, and whether the pose service answers. */
  datatype WarmUp = WarmUp(event: Event, service: bool)

  predicate EventsFor(events: seq<Event>, cameras: nat) {
    forall i :: 0 <= i < |events| && events[i].Rgb? ==> events[i].camera < cameras
  }

  predicate EventsOf(env: Surroundings, cameras: nat) {
    EventsFor(env.posing, cameras) && EventsFor(env.settling, cameras) && EventsFor(env.waiting, cameras)
  }

  // ---------------------------------------------------------------- a steady clock

  /** From time t on the clock readings never fall. */
  ghost predicate Steady(t: int, events: seq<Event>) {
    && (forall i :: 0 <= i < |events| && events[i].Clock? ==> t <= events[i].now)
    && (forall i, j :: 0 <= i < j < |events| && events[i].Clock? && events[j].Clock? ==> events[i].now <= events[j].now)
  }

  /** The last clock reading, t if there is none. */
  ghost function Latest(t: int, events: seq<Event>): int {
    if events == [] then t
    else
      var n := |events| - 1;
      if events[n].Clock? then events[n].now else Latest(t, events[..n])
  }

  lemma {:induction false} LatestIsRead(t: int, events: seq<Event>)
    ensures Latest(t, events) == t || exists i :: 0 <= i < |events| && events[i] == Clock(Latest(t, events))
  {
    if events != [] && !events[|events| - 1].Clock? {
      LatestIsRead(t, events[..|events| - 1]);
    }
  }

  /** A steady clock is at its latest reading at the end. */
  lemma LatestGrows(t: int, events: seq<Event>, i: nat)
    requires Steady(t, events) && i <= |events|
    ensures Steady(t, events[..i]) && t <= Latest(t, events[..i]) <= Latest(t, events)
    ensures i < |events| && events[i].Clock? ==> Latest(t, events[..i]) <= events[i].now
  {
    var part := events[..i];
    LatestIsRead(t, part);
    LatestIsLast(t, events, i);
  }

  lemma {:induction false} LatestIsLast(t: int, events: seq<Event>, i: nat)
    requires Steady(t, events) && i <= |events|
    ensures t <= Latest(t, events)
    ensures forall k :: 0 <= k < |events| && events[k].Clock? ==> events[k].now <= Latest(t, events)
  {
    if events != [] && !events[|events| - 1].Clock? {
      LatestIsLast(t, events[..|events| - 1], 0);
    }
  }

  lemma LatestStep(t: int, events: seq<Event>, i: nat)
    requires i < |events|
    ensures Latest(t, events[..i + 1]) == if events[i].Clock? then events[i].now else Latest(t, events[..i])
  {
    assert events[..i + 1][..i] == events[..i];
  }

  /** A clock that starts earlier is steady too, and ends no later. */
  lemma {:induction false} EarlierIsSteady(t: int, later: int, events: seq<Event>)
    requires t <= later && Steady(later, events)
    ensures Steady(t, events) && Latest(t, events) <= Latest(later, events)
  {
    if events != [] {
      EarlierIsSteady(t, later, events[..|events| - 1]);
    }
  }

  /** One more event keeps the clock steady exactly if it is no earlier reading. */
  lemma SteadyStep(t: int, events: seq<Event>, i: nat)
    requires i < |events| && Steady(t, events[..i])
    ensures Steady(t, events[..i + 1]) <==> (events[i].Clock? ==> Latest(t, events[..i]) <= events[i].now)
  {
    var part, more := events[..i], events[..i + 1];
    LatestIsRead(t, part);
    LatestIsLast(t, part, 0);
    assert forall k :: 0 <= k < i ==> more[k] == part[k];
    if Steady(t, more) && events[i].Clock? && Latest(t, part) != t {
      var k :| 0 <= k < |part| && part[k] == Clock(Latest(t, part));
      assert more[k] == part[k] && more[i] == events[i];
    }
    assert more[i] == events[i];
  }

  /** Before the first event. */
  lemma NoEvents(t: int, events: seq<Event>)
    ensures events[..0] == [] && Latest(t, events[..0]) == t && Steady(t, events[..0])
    ensures Steady(t, events) ==> t <= Latest(t, events)
  {
    if Steady(t, events) {
      LatestGrows(t, events, 0);
    }
  }

  /** A steady clock reads no less at the next event. */
  lemma Reading(t: int, events: seq<Event>, i: nat)
    requires i < |events|
    ensures Latest(t, events[..i + 1]) == if events[i].Clock? then events[i].now else Latest(t, events[..i])
    ensures Steady(t, events) ==> Latest(t, events[..i]) <= Latest(t, events[..i + 1]) <= Latest(t, events)
  {
    LatestStep(t, events, i);
    if Steady(t, events) {
      LatestGrows(t, events, i);
      LatestGrows(t, events, i + 1);
    }
  }

  ghost predicate SteadyCall(t: int, env: Surroundings) {
    && Steady(t, env.posing) && Steady(Latest(t, env.posing), env.settling)
    && Steady(Latest(Latest(t, env.posing), env.settling), env.waiting)
  }

  ghost function LatestInCall(t: int, env: Surroundings): int {
    Latest(Latest(Latest(t, env.posing), env.settling), env.waiting)
  }

  lemma EarlierCallIsSteady(t: int, later: int, env: Surroundings)
    requires t <= later && SteadyCall(later, env)
    ensures SteadyCall(t, env) && LatestInCall(t, env) <= LatestInCall(later, env)
  {
    hide Steady, Latest;
    EarlierIsSteady(t, later, env.posing);
    EarlierIsSteady(Latest(t, env.posing), Latest(later, env.posing), env.settling);
    EarlierIsSteady(
      Latest(Latest(t, env.posing), env.settling), Latest(Latest(later, env.posing), env.settling), env.waiting);
  }

  /** A steady call only moves the clock on. */
  lemma CallMovesOn(t: int, env: Surroundings)
    requires SteadyCall(t, env)
    ensures t <= Latest(t, env.posing) <= Latest(Latest(t, env.posing), env.settling) <= LatestInCall(t, env)
  {
    LatestIsLast(t, env.posing, 0);
    LatestIsLast(Latest(t, env.posing), env.settling, 0);
    LatestIsLast(Latest(Latest(t, env.posing), env.settling), env.waiting, 0);
  }

  ghost predicate SteadyCalls(t: int, calls: seq<Surroundings>)
    decreases |calls|
  {
    calls == [] || (SteadyCall(t, calls[0]) && SteadyCalls(LatestInCall(t, calls[0]), calls[1..]))
  }

  ghost function LatestInCalls(t: int, calls: seq<Surroundings>): int
    decreases |calls|
  {
    if calls == [] then t else LatestInCalls(LatestInCall(t, calls[0]), calls[1..])
  }

  lemma {:induction false} EarlierCallsAreSteady(t: int, later: int, calls: seq<Surroundings>)
    requires t <= later && SteadyCalls(later, calls)
    ensures SteadyCalls(t, calls) && LatestInCalls(t, calls) <= LatestInCalls(later, calls)
    decreases |calls|
  {
    hide SteadyCall, LatestInCall;
    if calls != [] {
      EarlierCallIsSteady(t, later, calls[0]);
      EarlierCallsAreSteady(LatestInCall(t, calls[0]), LatestInCall(later, calls[0]), calls[1..]);
    }
  }

  lemma {:induction false} CallsMoveOn(t: int, calls: seq<Surroundings>)
    requires SteadyCalls(t, calls)
    ensures t <= LatestInCalls(t, calls)
    decreases |calls|
  {
    hide SteadyCall, LatestInCall;
    if calls != [] {
      CallMovesOn(t, calls[0]);
      CallsMoveOn(LatestInCall(t, calls[0]), calls[1..]);
    }
  }

  // ---------------------------------------------------------------- the start-up wait

  ghost function EventsIn(warmup: seq<WarmUp>): seq<Event> {
    seq(|warmup|, i requires 0 <= i < |warmup| => warmup[i].event)
  }

  /** The camera has sent a frame with a positive stamp. */
  ghost predicate Heard(events: seq<Event>, camera: nat) {
    exists k :: 0 <= k < |events| && events[k].Rgb? && events[k].camera == camera && events[k].stamp > 0
  }

  ghost predicate AllHeard(events: seq<Event>, cameras: nat) {
    forall c: nat :: c < cameras ==> Heard(events, c)
  }

  /** After spin i the pose service answers, every camera was heard and a steady clock is running. */
  ghost predicate ReadyAt(warmup: seq<WarmUp>, cameras: nat, i: nat) {
    && i < |warmup| && warmup[i].service
    && Steady(0, EventsIn(warmup)[..i + 1]) && Latest(0, EventsIn(warmup)[..i + 1]) > 0
    && AllHeard(EventsIn(warmup)[..i + 1], cameras)
  }

  ghost predicate GetsReady(warmup: seq<WarmUp>, cameras: nat) {
    exists i: nat :: ReadyAt(warmup, cameras, i)
  }
}
