/**
 The spaced top-up of a capture plan: greedy picks of the candidate views that close the
 cameras' remaining deficits, with at most four headings per position and new positions
 at least half a metre apart.
 */
module TopUp {
  import opened Options
  import opened Counting
  import opened Polylines

  /** A robot pose on the grid; `edge[c]` says whether it is an edge view for camera c. */
  datatype Candidate = Candidate(position: Point, edge: seq<bool>)

  const MAX_HEADINGS: nat := 4
  /** The square of the minimum spacing of half a metre. */
  const MIN_SPACING_SQ := 0.25

  /** Candidates for `cameras` cameras. */
  predicate Shaped(cands: seq<Candidate>, cameras: nat) {
    forall i :: 0 <= i < |cands| ==> |cands[i].edge| == cameras
  }

  predicate AreCandidates(cands: seq<Candidate>, chosen: seq<nat>) {
    forall k :: 0 <= k < |chosen| ==> chosen[k] < |cands|
  }

  // ---------------------------------------------------------------- deficits and gains

  function Total(need: seq<nat>): nat {
    if need == [] then 0 else Total(need[..|need| - 1]) + need[|need| - 1]
  }

  /** How many cameras in deficit the view would help. */
  function Gain(need: seq<nat>, edge: seq<bool>): nat
    requires |need| == |edge|
  {
    if need == [] then 0
    else
      var n := |need| - 1;
      Gain(need[..n], edge[..n]) + if edge[n] && need[n] > 0 then 1 else 0
  }

  function Reduced(need: seq<nat>, edge: seq<bool>): (r: seq<nat>)
    requires |need| == |edge|
    ensures |r| == |need|
  {
    seq(|need|, c requires 0 <= c < |need| => if edge[c] && need[c] > 0 then need[c] - 1 else need[c])
  }

  /** The edge views that the chosen poses give camera c. */
  ghost function EdgeViews(cands: seq<Candidate>, chosen: seq<nat>, c: nat): nat
    requires AreCandidates(cands, chosen) && (forall i :: 0 <= i < |cands| ==> c < |cands[i].edge|)
  {
    if chosen == [] then 0
    else
      var n := |chosen| - 1;
      EdgeViews(cands, chosen[..n], c) + if cands[chosen[n]].edge[c] then 1 else 0
  }

  ghost function Deficit(cands: seq<Candidate>, need: seq<nat>, chosen: seq<nat>): (r: seq<nat>)
    requires Shaped(cands, |need|) && AreCandidates(cands, chosen)
    ensures |r| == |need|
  {
    seq(|need|, c requires 0 <= c < |need| =>
      var seen := EdgeViews(cands, chosen, c);
      if need[c] > seen then need[c] - seen else 0)
  }

  lemma DeficitStep(cands: seq<Candidate>, need: seq<nat>, chosen: seq<nat>, i: nat)
    requires Shaped(cands, |need|) && AreCandidates(cands, chosen) && i < |cands|
    ensures Deficit(cands, need, chosen + [i]) == Reduced(Deficit(cands, need, chosen), cands[i].edge)
  {
    var more := chosen + [i];
    assert more[..|chosen|] == chosen;
    forall c | 0 <= c < |need|
      ensures EdgeViews(cands, more, c) == EdgeViews(cands, chosen, c) + if cands[i].edge[c] then 1 else 0
    {
    }
  }

  /** A view with a gain of g lowers the total deficit by exactly g. */
  lemma {:induction false} GainIsWhatTheTotalLoses(need: seq<nat>, edge: seq<bool>)
    requires |need| == |edge|
    ensures Total(Reduced(need, edge)) + Gain(need, edge) == Total(need)
  {
    if need != [] {
      var n := |need| - 1;
      GainIsWhatTheTotalLoses(need[..n], edge[..n]);
      assert Reduced(need, edge)[..n] == Reduced(need[..n], edge[..n]);
    }
  }

  // ---------------------------------------------------------------- the greedy rule

  ghost function HeadingsAt(cands: seq<Candidate>, chosen: seq<nat>, p: Point): nat
    requires AreCandidates(cands, chosen)
  {
    if chosen == [] then 0
    else
      var n := |chosen| - 1;
      HeadingsAt(cands, chosen[..n], p) + if cands[chosen[n]].position == p then 1 else 0
  }

  /** No chosen position is nearer to p than the minimum spacing. */
  ghost predicate Spaced(cands: seq<Candidate>, chosen: seq<nat>, p: Point)
    requires AreCandidates(cands, chosen)
  {
    forall k :: 0 <= k < |chosen| ==> DistSq(cands[chosen[k]].position, p) >= MIN_SPACING_SQ
  }

  /** A position may be used again until it has four headings, a new one only if it is spaced. */
  ghost predicate PositionAllowed(cands: seq<Candidate>, chosen: seq<nat>, p: Point)
    requires AreCandidates(cands, chosen)
  {
    && HeadingsAt(cands, chosen, p) < MAX_HEADINGS
    && (HeadingsAt(cands, chosen, p) > 0 || Spaced(cands, chosen, p))
  }

  ghost predicate Open(cands: seq<Candidate>, free: seq<bool>, chosen: seq<nat>, i: nat)
    requires |free| == |cands| && AreCandidates(cands, chosen)
  {
    i < |cands| && free[i] && i !in chosen && PositionAllowed(cands, chosen, cands[i].position)
  }

  /** The first of the open candidates that help the most, and it does help. */
  ghost predicate BestPick(cands: seq<Candidate>, free: seq<bool>, need: seq<nat>, chosen: seq<nat>, i: nat)
    requires |free| == |cands| && Shaped(cands, |need|) && AreCandidates(cands, chosen)
  {
    var left := Deficit(cands, need, chosen);
    && Open(cands, free, chosen, i)
    && Gain(left, cands[i].edge) > 0
    && (forall j: nat :: Open(cands, free, chosen, j) ==> Gain(left, cands[j].edge) <= Gain(left, cands[i].edge))
    && (forall j: nat :: Open(cands, free, chosen, j) && j < i ==> Gain(left, cands[j].edge) < Gain(left, cands[i].edge))
  }

  ghost predicate Greedy(cands: seq<Candidate>, free: seq<bool>, need: seq<nat>, chosen: seq<nat>)
    requires |free| == |cands| && Shaped(cands, |need|)
  {
    && AreCandidates(cands, chosen)
    && (chosen != [] ==>
          var n := |chosen| - 1;
          Greedy(cands, free, need, chosen[..n]) && BestPick(cands, free, need, chosen[..n], chosen[n]))
  }

  /** Nothing is missing any more, or no open candidate helps. */
  ghost predicate Done(cands: seq<Candidate>, free: seq<bool>, need: seq<nat>, chosen: seq<nat>)
    requires |free| == |cands| && Shaped(cands, |need|) && AreCandidates(cands, chosen)
  {
    var left := Deficit(cands, need, chosen);
    || Total(left) == 0
    || forall j: nat :: Open(cands, free, chosen, j) ==> Gain(left, cands[j].edge) == 0
  }

  // ---------------------------------------------------------------- what greedy picks achieve

  lemma {:induction false} NoPickTwice(cands: seq<Candidate>, free: seq<bool>, need: seq<nat>, chosen: seq<nat>)
    requires |free| == |cands| && Shaped(cands, |need|) && Greedy(cands, free, need, chosen)
    ensures NoRepeats(chosen)
    ensures forall k :: 0 <= k < |chosen| ==> free[chosen[k]]
  {
    hide PositionAllowed, Deficit, Gain;
    if chosen != [] {
      var n := |chosen| - 1;
      NoPickTwice(cands, free, need, chosen[..n]);
      assert forall k :: 0 <= k < n ==> chosen[..n][k] == chosen[k];
    }
  }

  lemma {:induction false} AtMostFourHeadings(
    cands: seq<Candidate>, free: seq<bool>, need: seq<nat>, chosen: seq<nat>, p: Point)
    requires |free| == |cands| && Shaped(cands, |need|) && Greedy(cands, free, need, chosen)
    ensures HeadingsAt(cands, chosen, p) <= MAX_HEADINGS
  {
    hide Spaced, Deficit, Gain;
    if chosen != [] {
      AtMostFourHeadings(cands, free, need, chosen[..|chosen| - 1], p);
    }
  }

  lemma {:induction false} HeadingsMeanChosen(cands: seq<Candidate>, chosen: seq<nat>, p: Point) returns (k: nat)
    requires AreCandidates(cands, chosen) && HeadingsAt(cands, chosen, p) > 0
    ensures k < |chosen| && cands[chosen[k]].position == p
  {
    var n := |chosen| - 1;
    if cands[chosen[n]].position == p {
      k := n;
    } else {
      k := HeadingsMeanChosen(cands, chosen[..n], p);
    }
  }

  ghost predicate FarApart(cands: seq<Candidate>, chosen: seq<nat>)
    requires AreCandidates(cands, chosen)
  {
    forall i, j :: 0 <= i < j < |chosen| && cands[chosen[i]].position != cands[chosen[j]].position ==>
      DistSq(cands[chosen[i]].position, cands[chosen[j]].position) >= MIN_SPACING_SQ
  }

  lemma DistSqSymmetric(p: Point, q: Point)
    ensures DistSq(p, q) == DistSq(q, p)
  {
  }

  lemma AllowedIsFarFromOthers(cands: seq<Candidate>, chosen: seq<nat>, p: Point, i: nat)
    requires AreCandidates(cands, chosen) && FarApart(cands, chosen) && PositionAllowed(cands, chosen, p)
    requires i < |chosen| && cands[chosen[i]].position != p
    ensures DistSq(cands[chosen[i]].position, p) >= MIN_SPACING_SQ
  {
    hide DistSq, HeadingsAt;
    if HeadingsAt(cands, chosen, p) > 0 {
      var k := HeadingsMeanChosen(cands, chosen, p);
      DistSqSymmetric(p, cands[chosen[i]].position);
    }
  }

  /** Any two picks stand at the same position or at least half a metre apart. */
  lemma {:induction false} PositionsAreSpaced(cands: seq<Candidate>, free: seq<bool>, need: seq<nat>, chosen: seq<nat>)
    requires |free| == |cands| && Shaped(cands, |need|) && Greedy(cands, free, need, chosen)
    ensures FarApart(cands, chosen)
  {
    hide DistSq, Deficit, Gain, PositionAllowed;
    if chosen != [] {
      var n := |chosen| - 1;
      var init := chosen[..n];
      PositionsAreSpaced(cands, free, need, init);
      forall i, j | 0 <= i < j < |chosen| && cands[chosen[i]].position != cands[chosen[j]].position
        ensures DistSq(cands[chosen[i]].position, cands[chosen[j]].position) >= MIN_SPACING_SQ
      {
        assert init[i] == chosen[i];
        if j < n {
          assert init[j] == chosen[j];
        } else {
          AllowedIsFarFromOthers(cands, init, cands[chosen[n]].position, i);
        }
      }
    }
  }

  /** Every pick closes at least one unit of deficit, so there are no more picks than units. */
  lemma {:induction false} PicksPayTheirWay(cands: seq<Candidate>, free: seq<bool>, need: seq<nat>, chosen: seq<nat>)
    requires |free| == |cands| && Shaped(cands, |need|) && Greedy(cands, free, need, chosen)
    ensures |chosen| + Total(Deficit(cands, need, chosen)) <= Total(need)
  {
    hide Gain, Total, PositionAllowed;
    if chosen == [] {
      assert Deficit(cands, need, chosen) == need;
    } else {
      var n := |chosen| - 1;
      var init := chosen[..n];
      PicksPayTheirWay(cands, free, need, init);
      DeficitStep(cands, need, init, chosen[n]);
      assert chosen == init + [chosen[n]];
      GainIsWhatTheTotalLoses(Deficit(cands, need, init), cands[chosen[n]].edge);
    }
  }

  lemma {:induction false} NoDeficitNoGain(need: seq<nat>, edge: seq<bool>)
    requires |need| == |edge| && Total(need) == 0
    ensures Gain(need, edge) == 0
  {
    if need != [] {
      NoDeficitNoGain(need[..|need| - 1], edge[..|need| - 1]);
    }
  }

  /** The greedy rule leaves no choice: two finished runs are the same run. */
  lemma GreedyIsDetermined(
    cands: seq<Candidate>, free: seq<bool>, need: seq<nat>, a: seq<nat>, b: seq<nat>)
    requires |free| == |cands| && Shaped(cands, |need|)
    requires Greedy(cands, free, need, a) && Done(cands, free, need, a)
    requires Greedy(cands, free, need, b) && Done(cands, free, need, b)
    ensures a == b
  {
    hide Greedy, BestPick, Done;
    SharedPrefix(cands, free, need, a, b, if |a| <= |b| then |a| else |b|);
    if |a| < |b| {
      PickOfRun(cands, free, need, b, |a|);
      assert b[..|a|] == a;
      DoneMeansNoPick(cands, free, need, a, b[|a|]);
    } else if |b| < |a| {
      PickOfRun(cands, free, need, a, |b|);
      assert a[..|b|] == b;
      DoneMeansNoPick(cands, free, need, b, a[|b|]);
    } else {
      assert a[..|a|] == b[..|a|];
    }
  }

  lemma {:induction false} PickOfRun(cands: seq<Candidate>, free: seq<bool>, need: seq<nat>, chosen: seq<nat>, k: nat)
    requires |free| == |cands| && Shaped(cands, |need|) && Greedy(cands, free, need, chosen) && k < |chosen|
    ensures AreCandidates(cands, chosen[..k]) && BestPick(cands, free, need, chosen[..k], chosen[k])
  {
    hide BestPick;
    var n := |chosen| - 1;
    if k < n {
      PickOfRun(cands, free, need, chosen[..n], k);
      assert chosen[..n][..k] == chosen[..k];
    }
  }

  lemma {:induction false} SharedPrefix(
    cands: seq<Candidate>, free: seq<bool>, need: seq<nat>, a: seq<nat>, b: seq<nat>, k: nat)
    requires |free| == |cands| && Shaped(cands, |need|)
    requires Greedy(cands, free, need, a) && Greedy(cands, free, need, b) && k <= |a| && k <= |b|
    ensures a[..k] == b[..k]
  {
    hide Greedy, Open, Deficit, Gain;
    if k > 0 {
      SharedPrefix(cands, free, need, a, b, k - 1);
      PickOfRun(cands, free, need, a, k - 1);
      PickOfRun(cands, free, need, b, k - 1);
      assert a[k - 1] == b[k - 1];
    }
  }

  lemma DoneMeansNoPick(cands: seq<Candidate>, free: seq<bool>, need: seq<nat>, chosen: seq<nat>, i: nat)
    requires |free| == |cands| && Shaped(cands, |need|) && AreCandidates(cands, chosen)
    requires Done(cands, free, need, chosen)
    ensures !BestPick(cands, free, need, chosen, i)
  {
    if BestPick(cands, free, need, chosen, i) {
      NoDeficitNoGain(Deficit(cands, need, chosen), cands[i].edge);
    }
  }

  // ---------------------------------------------------------------- the loop

  /** Whether p is nearer than the minimum spacing to one of the positions taken so far. */
  predicate TooNear(positions: seq<Point>, p: Point) {
    exists m :: 0 <= m < |positions| && DistSq(positions[m], p) < MIN_SPACING_SQ
  }

  /**
   The loop's lazily kept flags lie between what is open and what could still be taken;
   the counters and the list of positions describe the picks.
   */
  ghost predicate Flags(cands: seq<Candidate>, free: seq<bool>, chosen: seq<nat>, avail: seq<bool>)
    requires |free| == |cands| && AreCandidates(cands, chosen)
  {
    && |avail| == |cands|
    && (forall i: nat :: i < |cands| && avail[i] ==>
          free[i] && i !in chosen && HeadingsAt(cands, chosen, cands[i].position) < MAX_HEADINGS)
    && (forall i: nat :: Open(cands, free, chosen, i) ==> avail[i])
  }

  function CountIn(perPosition: map<Point, nat>, p: Point): nat {
    if p in perPosition then perPosition[p] else 0
  }

  ghost predicate Counts(cands: seq<Candidate>, chosen: seq<nat>, perPosition: map<Point, nat>)
    requires AreCandidates(cands, chosen)
  {
    forall p ::
      && HeadingsAt(cands, chosen, p) == CountIn(perPosition, p)
      && (p in perPosition <==> HeadingsAt(cands, chosen, p) > 0)
  }

  ghost predicate Lists(cands: seq<Candidate>, chosen: seq<nat>, positions: seq<Point>)
    requires AreCandidates(cands, chosen)
  {
    && (forall m :: 0 <= m < |positions| ==> HeadingsAt(cands, chosen, positions[m]) > 0)
    && (forall k :: 0 <= k < |chosen| ==> cands[chosen[k]].position in positions)
  }

  lemma NearIsNotSpaced(cands: seq<Candidate>, chosen: seq<nat>, positions: seq<Point>, p: Point)
    requires AreCandidates(cands, chosen) && Lists(cands, chosen, positions)
    ensures TooNear(positions, p) <==> !Spaced(cands, chosen, p)
  {
    hide DistSq, HeadingsAt;
    if TooNear(positions, p) {
      var m :| 0 <= m < |positions| && DistSq(positions[m], p) < MIN_SPACING_SQ;
      var k := HeadingsMeanChosen(cands, chosen, positions[m]);
    } else {
      forall k | 0 <= k < |chosen|
        ensures DistSq(cands[chosen[k]].position, p) >= MIN_SPACING_SQ
      {
        assert cands[chosen[k]].position in positions;
      }
    }
  }

  lemma HeadingsStep(cands: seq<Candidate>, chosen: seq<nat>, i: nat, p: Point)
    requires AreCandidates(cands, chosen) && i < |cands|
    ensures HeadingsAt(cands, chosen + [i], p) ==
            HeadingsAt(cands, chosen, p) + if cands[i].position == p then 1 else 0
  {
    assert (chosen + [i])[..|chosen|] == chosen;
  }

  /** What is open after a pick was open before it. */
  lemma OpenShrinks(cands: seq<Candidate>, free: seq<bool>, chosen: seq<nat>, i: nat, j: nat)
    requires |free| == |cands| && AreCandidates(cands, chosen) && Open(cands, free, chosen, i)
    requires Open(cands, free, chosen + [i], j)
    ensures Open(cands, free, chosen, j) && i != j
  {
    hide DistSq, HeadingsAt;
    var more := chosen + [i];
    assert more[|chosen|] == i;
    assert forall k :: 0 <= k < |chosen| ==> more[k] == chosen[k];
    HeadingsStep(cands, chosen, i, cands[j].position);
  }

  /** The flags after a pick: cleared at the pick, and at its whole position once that is full. */
  lemma FlagsAfterPick(
    cands: seq<Candidate>, free: seq<bool>, chosen: seq<nat>, avail: seq<bool>, i: nat, after: seq<bool>)
    requires |free| == |cands| && AreCandidates(cands, chosen) && Flags(cands, free, chosen, avail)
    requires Open(cands, free, chosen, i)
    requires Taken(cands, avail, i, HeadingsAt(cands, chosen, cands[i].position) + 1 >= MAX_HEADINGS, after)
    ensures Flags(cands, free, chosen + [i], after)
  {
    hide HeadingsAt, PositionAllowed;
    var more := chosen + [i];
    forall j: nat | j < |cands| && after[j]
      ensures free[j] && j !in more && HeadingsAt(cands, more, cands[j].position) < MAX_HEADINGS
    {
      HeadingsStep(cands, chosen, i, cands[j].position);
    }
    forall j: nat | Open(cands, free, more, j)
      ensures after[j]
    {
      OpenShrinks(cands, free, chosen, i, j);
      HeadingsStep(cands, chosen, i, cands[j].position);
      assert HeadingsAt(cands, more, cands[j].position) < MAX_HEADINGS by {
        RoomLeft(cands, free, more, j);
      }
    }
  }

  lemma RoomLeft(cands: seq<Candidate>, free: seq<bool>, chosen: seq<nat>, j: nat)
    requires |free| == |cands| && AreCandidates(cands, chosen) && Open(cands, free, chosen, j)
    ensures HeadingsAt(cands, chosen, cands[j].position) < MAX_HEADINGS
  {
  }

  lemma CountsAfterPick(cands: seq<Candidate>, chosen: seq<nat>, perPosition: map<Point, nat>, i: nat)
    requires AreCandidates(cands, chosen) && Counts(cands, chosen, perPosition) && i < |cands|
    ensures var p := cands[i].position;
            Counts(cands, chosen + [i], perPosition[p := CountIn(perPosition, p) + 1])
  {
    hide HeadingsAt;
    forall q
      ensures HeadingsAt(cands, chosen + [i], q) ==
              HeadingsAt(cands, chosen, q) + if cands[i].position == q then 1 else 0
    {
      HeadingsStep(cands, chosen, i, q);
    }
  }

  lemma ListsAfterPick(cands: seq<Candidate>, chosen: seq<nat>, positions: seq<Point>, i: nat)
    requires AreCandidates(cands, chosen) && Lists(cands, chosen, positions) && i < |cands|
    ensures var p := cands[i].position;
            Lists(cands, chosen + [i], if HeadingsAt(cands, chosen, p) > 0 then positions else positions + [p])
  {
    hide HeadingsAt;
    var p := cands[i].position;
    var more := if HeadingsAt(cands, chosen, p) > 0 then positions else positions + [p];
    if HeadingsAt(cands, chosen, p) > 0 {
      var k := HeadingsMeanChosen(cands, chosen, p);
      assert p in positions;
    } else {
      assert more[|positions|] == p;
    }
    forall m | 0 <= m < |more|
      ensures HeadingsAt(cands, chosen + [i], more[m]) > 0
    {
      HeadingsStep(cands, chosen, i, more[m]);
    }
  }

  function Flagged(avail: seq<bool>): nat {
    if avail == [] then 0 else Flagged(avail[..|avail| - 1]) + if avail[|avail| - 1] then 1 else 0
  }

  lemma {:induction false} FlagsRunOut(before: seq<bool>, after: seq<bool>, i: nat)
    requires |after| == |before| && i < |before| && before[i] && !after[i]
    requires forall j :: 0 <= j < |before| && after[j] ==> before[j]
    ensures Flagged(after) < Flagged(before)
  {
    var n := |before| - 1;
    if i < n {
      FlagsRunOut(before[..n], after[..n], i);
    } else {
      FlagsOnlyFall(before[..n], after[..n]);
    }
  }

  lemma {:induction false} FlagsOnlyFall(before: seq<bool>, after: seq<bool>)
    requires |after| == |before|
    requires forall j :: 0 <= j < |before| && after[j] ==> before[j]
    ensures Flagged(after) <= Flagged(before)
  {
    if before != [] {
      FlagsOnlyFall(before[..|before| - 1], after[..|before| - 1]);
    }
  }

  function FlaggedGain(cands: seq<Candidate>, avail: seq<bool>, need: seq<nat>, i: nat): nat
    requires |avail| == |cands| && Shaped(cands, |need|) && i < |cands|
  {
    if avail[i] then Gain(need, cands[i].edge) else 0
  }

  ghost predicate IsMostGain(cands: seq<Candidate>, avail: seq<bool>, need: seq<nat>, i: nat)
    requires |avail| == |cands| && Shaped(cands, |need|) && i < |cands|
  {
    && (forall j: nat :: j < |cands| ==> FlaggedGain(cands, avail, need, j) <= FlaggedGain(cands, avail, need, i))
    && (forall j: nat :: j < i ==> FlaggedGain(cands, avail, need, j) < FlaggedGain(cands, avail, need, i))
  }

  /** The first flagged candidate of largest gain. */
  method MostGain(cands: seq<Candidate>, avail: array<bool>, need: seq<nat>) returns (best: nat)
    requires avail.Length == |cands| && Shaped(cands, |need|) && |cands| > 0
    ensures best < |cands| && IsMostGain(cands, avail[..], need, best)
  {
    hide Gain;
    best := 0;
    for i := 1 to |cands|
      invariant best < i
      invariant forall j: nat :: j < i ==>
                  FlaggedGain(cands, avail[..], need, j) <= FlaggedGain(cands, avail[..], need, best)
      invariant forall j: nat :: j < best ==>
                  FlaggedGain(cands, avail[..], need, j) < FlaggedGain(cands, avail[..], need, best)
    {
      if FlaggedGain(cands, avail[..], need, i) > FlaggedGain(cands, avail[..], need, best) {
        best := i;
      }
    }
  }

  /** Clears the flags of every candidate at p. */
  method ClearPosition(cands: seq<Candidate>, avail: array<bool>, p: Point)
    requires avail.Length == |cands|
    modifies avail
    ensures forall j :: 0 <= j < |cands| ==> avail[j] == (old(avail[j]) && cands[j].position != p)
  {
    for i := 0 to |cands|
      invariant forall j :: 0 <= j < i ==> avail[j] == (old(avail[j]) && cands[j].position != p)
      invariant forall j :: i <= j < |cands| ==> avail[j] == old(avail[j])
    {
      if cands[i].position == p {
        avail[i] := false;
      }
    }
  }

  /** Clears the flag of the pick, and of its whole position if that is full. */
  method Take(cands: seq<Candidate>, avail: array<bool>, i: nat, full: bool)
    requires avail.Length == |cands| && i < |cands|
    modifies avail
    ensures Taken(cands, old(avail[..]), i, full, avail[..])
  {
    avail[i] := false;
    if full {
      ClearPosition(cands, avail, cands[i].position);
    }
  }

  ghost predicate Taken(cands: seq<Candidate>, before: seq<bool>, i: nat, full: bool, after: seq<bool>)
    requires |before| == |cands| && i < |cands|
  {
    && |after| == |cands|
    && forall j :: 0 <= j < |cands| ==>
         after[j] == (before[j] && j != i && !(full && cands[j].position == cands[i].position))
  }

  ghost predicate State(
    cands: seq<Candidate>, free: seq<bool>, need: seq<nat>, chosen: seq<nat>, avail: seq<bool>,
    perPosition: map<Point, nat>, positions: seq<Point>, left: seq<nat>)
    requires |free| == |cands| && Shaped(cands, |need|)
  {
    && Greedy(cands, free, need, chosen)
    && AreCandidates(cands, chosen)
    && Flags(cands, free, chosen, avail) && Counts(cands, chosen, perPosition) && Lists(cands, chosen, positions)
    && left == Deficit(cands, need, chosen)
  }

  /** Books candidate i: its view, its position and what it closes. */
  method Accept(
    cands: seq<Candidate>, ghost free: seq<bool>, ghost need: seq<nat>, picks: seq<nat>, avail: array<bool>,
    perPosition: map<Point, nat>, positions: seq<Point>, left: seq<nat>, i: nat)
    returns (morePicks: seq<nat>, counts: map<Point, nat>, morePositions: seq<Point>, lessLeft: seq<nat>)
    requires |free| == |cands| && Shaped(cands, |need|) && i < |cands|
    requires State(cands, free, need, picks, avail[..], perPosition, positions, left)
    requires cands[i].position in perPosition || !TooNear(positions, cands[i].position)
    requires |left| == |need| && avail.Length == |cands|
    requires IsMostGain(cands, avail[..], left, i) && FlaggedGain(cands, avail[..], left, i) > 0
    modifies avail
    ensures State(cands, free, need, morePicks, avail[..], counts, morePositions, lessLeft)
    ensures |lessLeft| == |need| && Flagged(avail[..]) < Flagged(old(avail[..]))
  {
    hide State, Gain, TooNear, DistSq, Reduced, FlaggedGain, Flagged, Taken, CountIn, IsMostGain, Shaped;
    ghost var was := avail[..];
    var p := cands[i].position;
    var count := CountIn(perPosition, p) + 1;
    Take(cands, avail, i, count >= MAX_HEADINGS);
    PickIsTaken(cands, free, need, picks, was, perPosition, positions, left, i, avail[..]);
    morePicks := picks + [i];
    lessLeft := Reduced(left, cands[i].edge);
    morePositions := if p in perPosition then positions else positions + [p];
    counts := perPosition[p := count];
  }

  method CopyOf(flags: seq<bool>) returns (copy: array<bool>)
    ensures fresh(copy) && copy[..] == flags
  {
    copy := new bool[|flags|](i requires 0 <= i < |flags| => flags[i]);
    assert copy[..] == flags;
  }

  /** Picks views until no deficit is left or none helps; None when there are no candidates. */
  method PlanTopUp(cands: seq<Candidate>, free: seq<bool>, need: seq<nat>)
    returns (chosen: Option<seq<nat>>, left: seq<nat>)
    requires |free| == |cands| && Shaped(cands, |need|)
    ensures chosen.None? <==> cands == []
    ensures chosen.Some? ==>
              && Greedy(cands, free, need, chosen.value) && Done(cands, free, need, chosen.value)
              && left == Deficit(cands, need, chosen.value)
  {
    left := need;
    if cands == [] {
      return None, left;
    }
    hide State, Greedy, Done, Gain, Total, Deficit, TooNear, DistSq, Reduced, FlaggedGain, Flagged, Taken, CountIn, IsMostGain, Shaped;
    var avail := CopyOf(free);
    ghost var flags := free;
    var perPosition: map<Point, nat>, positions: seq<Point>, picks: seq<nat> := map[], [], [];
    StateAtFirst(cands, free, need);
    while Total(left) > 0
      invariant fresh(avail) && avail.Length == |cands| && avail[..] == flags
      invariant State(cands, free, need, picks, flags, perPosition, positions, left) && |left| == |need|
      decreases Flagged(flags)
    {
      ghost var was := flags;
      var i := MostGain(cands, avail, left);
      if FlaggedGain(cands, avail[..], left, i) == 0 {
        NothingHelps(cands, free, need, picks, was, perPosition, positions, left, i);
        return Some(picks), left;
      }
      var p := cands[i].position;
      if p !in perPosition && TooNear(positions, p) {
        avail[i] := false;
        flags := was[i := false];
        NearIsSkipped(cands, free, need, picks, was, perPosition, positions, left, i);
        continue;
      }
      picks, perPosition, positions, left :=
        Accept(cands, free, need, picks, avail, perPosition, positions, left, i);
      flags := avail[..];
    }
    NothingLeft(cands, free, need, picks, flags, perPosition, positions, left);
    chosen := Some(picks);
  }

  lemma StateAtFirst(cands: seq<Candidate>, free: seq<bool>, need: seq<nat>)
    requires |free| == |cands| && Shaped(cands, |need|)
    ensures State(cands, free, need, [], free, map[], [], need)
  {
  }

  lemma NothingLeft(
    cands: seq<Candidate>, free: seq<bool>, need: seq<nat>, chosen: seq<nat>, avail: seq<bool>,
    perPosition: map<Point, nat>, positions: seq<Point>, left: seq<nat>)
    requires |free| == |cands| && Shaped(cands, |need|)
    requires State(cands, free, need, chosen, avail, perPosition, positions, left) && Total(left) == 0
    ensures Greedy(cands, free, need, chosen)
    ensures left == Deficit(cands, need, chosen) && Done(cands, free, need, chosen)
  {
    hide Greedy, Deficit, Flags, Counts, Lists, Open, Gain;
  }

  lemma NothingHelps(
    cands: seq<Candidate>, free: seq<bool>, need: seq<nat>, chosen: seq<nat>, avail: seq<bool>,
    perPosition: map<Point, nat>, positions: seq<Point>, left: seq<nat>, i: nat)
    requires |free| == |cands| && Shaped(cands, |need|)
    requires State(cands, free, need, chosen, avail, perPosition, positions, left)
    requires |left| == |need| && |avail| == |cands| && i < |cands|
    requires IsMostGain(cands, avail, left, i) && FlaggedGain(cands, avail, left, i) == 0
    ensures Greedy(cands, free, need, chosen)
    ensures left == Deficit(cands, need, chosen) && Done(cands, free, need, chosen)
  {
    hide Gain, Total, Deficit, PositionAllowed, Greedy, Counts, Lists;
    forall j: nat | Open(cands, free, chosen, j)
      ensures Gain(left, cands[j].edge) == 0
    {
      assert FlaggedGain(cands, avail, left, j) == 0;
    }
  }

  lemma NearIsSkipped(
    cands: seq<Candidate>, free: seq<bool>, need: seq<nat>, chosen: seq<nat>, avail: seq<bool>,
    perPosition: map<Point, nat>, positions: seq<Point>, left: seq<nat>, i: nat)
    requires |free| == |cands| && Shaped(cands, |need|) && i < |cands|
    requires State(cands, free, need, chosen, avail, perPosition, positions, left) && |avail| == |cands|
    requires cands[i].position !in perPosition && TooNear(positions, cands[i].position)
    requires |left| == |need| && FlaggedGain(cands, avail, left, i) > 0
    ensures State(cands, free, need, chosen, avail[i := false], perPosition, positions, left)
    ensures Flagged(avail[i := false]) < Flagged(avail)
  {
    hide Gain, Greedy, Lists, Deficit;
    FlagsRunOut(avail, avail[i := false], i);
    NearIsNotSpaced(cands, chosen, positions, cands[i].position);
  }

  lemma PickIsTaken(
    cands: seq<Candidate>, free: seq<bool>, need: seq<nat>, chosen: seq<nat>, avail: seq<bool>,
    perPosition: map<Point, nat>, positions: seq<Point>, left: seq<nat>, i: nat, after: seq<bool>)
    requires |free| == |cands| && Shaped(cands, |need|) && i < |cands|
    requires State(cands, free, need, chosen, avail, perPosition, positions, left)
    requires cands[i].position in perPosition || !TooNear(positions, cands[i].position)
    requires |left| == |need| && |avail| == |cands|
    requires IsMostGain(cands, avail, left, i) && FlaggedGain(cands, avail, left, i) > 0
    requires Taken(cands, avail, i, CountIn(perPosition, cands[i].position) + 1 >= MAX_HEADINGS, after)
    ensures Flagged(after) < Flagged(avail) && |cands[i].edge| == |left|
    ensures var p := cands[i].position;
            State(cands, free, need, chosen + [i], after, perPosition[p := CountIn(perPosition, p) + 1],
              if p in perPosition then positions else positions + [p], Reduced(left, cands[i].edge))
  {
    hide Gain, Deficit, HeadingsAt, Flags, Lists, Greedy, BestPick, PositionAllowed, TooNear;
    var p := cands[i].position;
    assert HeadingsAt(cands, chosen, p) == CountIn(perPosition, p);
    FlagsRunOut(avail, after, i);
    FlaggedIsOpen(cands, free, chosen, avail, perPosition, positions, i);
    MostGainIsBest(cands, free, need, chosen, avail, i);
    GreedyStep(cands, free, need, chosen, i);
    FlagsAfterPick(cands, free, chosen, avail, i, after);
    CountsAfterPick(cands, chosen, perPosition, i);
    ListsAfterPick(cands, chosen, positions, i);
    DeficitStep(cands, need, chosen, i);
  }

  lemma FlaggedIsOpen(
    cands: seq<Candidate>, free: seq<bool>, chosen: seq<nat>, avail: seq<bool>,
    perPosition: map<Point, nat>, positions: seq<Point>, i: nat)
    requires |free| == |cands| && i < |cands| && AreCandidates(cands, chosen)
    requires Flags(cands, free, chosen, avail) && Counts(cands, chosen, perPosition) && Lists(cands, chosen, positions)
    requires avail[i] && (cands[i].position in perPosition || !TooNear(positions, cands[i].position))
    ensures Open(cands, free, chosen, i)
  {
    hide HeadingsAt, Spaced, TooNear, Lists;
    NearIsNotSpaced(cands, chosen, positions, cands[i].position);
  }

  lemma MostGainIsBest(
    cands: seq<Candidate>, free: seq<bool>, need: seq<nat>, chosen: seq<nat>, avail: seq<bool>, i: nat)
    requires |free| == |cands| && Shaped(cands, |need|) && i < |cands| && AreCandidates(cands, chosen)
    requires Flags(cands, free, chosen, avail) && Open(cands, free, chosen, i)
    requires var left := Deficit(cands, need, chosen);
             IsMostGain(cands, avail, left, i) && FlaggedGain(cands, avail, left, i) > 0
    ensures BestPick(cands, free, need, chosen, i)
  {
    hide Gain, Deficit, PositionAllowed, HeadingsAt;
    var left := Deficit(cands, need, chosen);
    forall j: nat | Open(cands, free, chosen, j)
      ensures Gain(left, cands[j].edge) == FlaggedGain(cands, avail, left, j)
    {
    }
  }

  lemma GreedyStep(cands: seq<Candidate>, free: seq<bool>, need: seq<nat>, chosen: seq<nat>, i: nat)
    requires |free| == |cands| && Shaped(cands, |need|) && Greedy(cands, free, need, chosen) && i < |cands|
    requires BestPick(cands, free, need, chosen, i)
    ensures Greedy(cands, free, need, chosen + [i])
  {
    hide BestPick;
    assert (chosen + [i])[..|chosen|] == chosen;
  }
}
