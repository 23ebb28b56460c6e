/**
 The histogram-stack search for the largest all-True rectangle of a mask.
 */
module LargestRectangle {
  import opened Options
  import opened Grid

  /** A stack entry: a bar of `height` that reaches back to column `start`. */
  datatype Bar = Bar(start: int, height: int)

  /** Bar heights with the sentinel column of height 0 that closes every row. */
  function Height(h: seq<int>, c: int): int {
    if 0 <= c < |h| then h[c] else 0
  }

  /** Every bar in columns s..e-1 reaches height t. */
  predicate AllAtLeast(h: seq<int>, s: int, e: int, t: int) {
    forall y :: s <= y < e ==> Height(h, y) >= t
  }

  /** Columns s..e-1 and height t form a non-empty rectangle under the histogram. */
  predicate UnderHistogram(h: seq<int>, s: int, e: int, t: int) {
    0 <= s < e <= |h| && 1 <= t && AllAtLeast(h, s, e, t)
  }

  /** The column at which the bar above stack entry `i` begins. */
  function Next(stack: seq<Bar>, i: int, c: int): int
    requires 0 <= i < |stack|
  {
    if i + 1 < |stack| then stack[i + 1].start else c
  }

  /**
   Entry `i` of the stack after columns 0..c-1: its height is the lowest bar in
   columns s..c-1 for every s from its start up to the next entry.
   */
  predicate Covers(h: seq<int>, stack: seq<Bar>, i: int, c: int)
    requires 0 <= i < |stack|
  {
    && 0 <= stack[i].start < Next(stack, i, c) <= c
    && AllAtLeast(h, stack[i].start, c, stack[i].height)
    && Height(h, Next(stack, i, c) - 1) == stack[i].height
  }

  ghost predicate StackDescribes(h: seq<int>, stack: seq<Bar>, c: int) {
    && (c > 0 <==> |stack| > 0)
    && (|stack| > 0 ==> stack[0].start == 0)
    && (forall i {:trigger Covers(h, stack, i, c)} :: 0 <= i < |stack| ==> Covers(h, stack, i, c))
    && (forall i, j :: 0 <= i < j < |stack| ==> stack[i].height < stack[j].height)
  }

  /** The best rectangle so far, with its area. */
  type Best = (int, Option<Rect>)

  /** The best one ends no later than row r, column c1; if just there, it is at least t high. */
  predicate NotAfter(best: Option<Rect>, r: int, c1: int, t: int) {
    best.Some? &&
    var b := best.value;
    b.r1 < r || (b.r1 == r && (b.c1 < c1 || (b.c1 == c1 && b.Height() >= t)))
  }

  /** A rectangle of this area on row r, ending in column c1 and t high, is no reason to change the best. */
  predicate Beaten(area: int, r: int, c1: int, t: int, best: Best) {
    area < best.0 || (area == best.0 && NotAfter(best.1, r, c1, t))
  }

  /** The rectangle that popping `entry` at column c reports is beaten. */
  predicate Reported(entry: Bar, r: int, c: int, best: Best) {
    entry.height >= 1 ==> Beaten(entry.height * (c - entry.start), r, c - 1, entry.height, best)
  }

  lemma AreaMonotone(t: int, w: int, t': int, w': int)
    requires 0 <= t <= t' && 0 <= w <= w'
    ensures t * w <= t' * w'
  {
    assert t * w <= t' * w by { assert (t' - t) * w >= 0; }
    assert t' * w <= t' * w' by { assert t' * (w' - w) >= 0; }
  }

  /** The entry whose span of start columns contains `s`. */
  lemma EntryFor(h: seq<int>, stack: seq<Bar>, c: int, s: int, t: int) returns (i: int)
    requires StackDescribes(h, stack, c) && 0 <= s < c
    requires AllAtLeast(h, s, c, t)
    ensures 0 <= i < |stack| && stack[i].start <= s && t <= stack[i].height
  {
    i := |stack| - 1;
    while stack[i].start > s
      invariant 0 <= i < |stack| && s < Next(stack, i, c)
      decreases i
    {
      i := i - 1;
    }
    assert Covers(h, stack, i, c);
    assert Height(h, Next(stack, i, c) - 1) >= t;
  }

  lemma Widen(h: seq<int>, s: int, c: int, t: int)
    requires AllAtLeast(h, s, c, t) && Height(h, c) >= t
    ensures AllAtLeast(h, s, c + 1, t)
  {
  }

  /** The rectangle under the histogram of row r is smaller than the best, or as large and not before it. */
  predicate Fits(r: int, s: int, e: int, t: int, best: Best) {
    Beaten(t * (e - s), r, e - 1, t, best)
  }

  /** Every rectangle ending before column c fits in `best` or can still be widened up to c. */
  ghost predicate Settled(h: seq<int>, r: int, c: int, best: Best) {
    forall s, e, t :: UnderHistogram(h, s, e, t) && e <= c ==>
      Fits(r, s, e, t, best) || AllAtLeast(h, s, c, t)
  }

  /** Equal areas of nested rectangles are those of one rectangle. */
  lemma SameArea(t: int, w: int, t': int, w': int)
    requires 1 <= t <= t' && 1 <= w <= w' && t * w == t' * w'
    ensures t == t' && w == w'
  {
    assert (t + 1) * w == t * w + w && t * (w + 1) == t * w + t;
    if t < t' {
      AreaMonotone(t + 1, w, t', w');
    } else if w < w' {
      AreaMonotone(t, w + 1, t', w');
    }
  }

  /**
   A rectangle that could still be widened before column c is either cut off by a
   lower bar at c, and then some popped entry dominates it, or it can be widened on.
   */
  lemma CutOffIsDominated(h: seq<int>, stack: seq<Bar>, k: int, r: int, c: int, best: Best,
                          s: int, e: int, t: int)
    requires StackDescribes(h, stack, c) && 0 <= c && 0 <= k <= |stack|
    requires forall i {:trigger stack[i]} :: k <= i < |stack| ==> Reported(stack[i], r, c, best)
    requires k > 0 ==> stack[k - 1].height < Height(h, c)
    requires UnderHistogram(h, s, e, t) && e <= c && AllAtLeast(h, s, c, t)
    ensures Fits(r, s, e, t, best) || AllAtLeast(h, s, c + 1, t)
  {
    if Height(h, c) < t {
      var i := EntryFor(h, stack, c, s, t);
      assert i >= k;
      assert Reported(stack[i], r, c, best);
      AreaMonotone(t, e - s, stack[i].height, c - stack[i].start);
      if t * (e - s) == stack[i].height * (c - stack[i].start) {
        SameArea(t, e - s, stack[i].height, c - stack[i].start);
      }
    } else {
      Widen(h, s, c, t);
    }
  }

  /** `better` is `best` itself or has more area. */
  predicate Grew(best: Best, better: Best) { better == best || better.0 > best.0 }

  lemma StillBeaten(area: int, r: int, c1: int, t: int, best: Best, better: Best)
    requires Beaten(area, r, c1, t, best) && Grew(best, better)
    ensures Beaten(area, r, c1, t, better)
  {
  }

  /** Popping every bar not lower than the one at c settles the columns up to c. */
  lemma SettleColumn(h: seq<int>, stack: seq<Bar>, k: int, r: int, c: int, before: Best, best: Best)
    requires StackDescribes(h, stack, c) && 0 <= c <= |h| && 0 <= k <= |stack| && Grew(before, best)
    requires forall i {:trigger stack[i]} :: k <= i < |stack| ==> Reported(stack[i], r, c, best)
    requires k > 0 ==> stack[k - 1].height < Height(h, c)
    requires Settled(h, r, c, before)
    ensures Settled(h, r, c + 1, best)
  {
    forall s, e, t | UnderHistogram(h, s, e, t) && e <= c + 1
      ensures Fits(r, s, e, t, best) || AllAtLeast(h, s, c + 1, t)
    {
      if e <= c {
        if Fits(r, s, e, t, before) {
          StillBeaten(t * (e - s), r, e - 1, t, before, best);
        } else {
          CutOffIsDominated(h, stack, k, r, c, best, s, e, t);
        }
      }
    }
  }

  lemma PushKeepsDescription(h: seq<int>, stack: seq<Bar>, k: int, c: int, start: int)
    requires StackDescribes(h, stack, c) && 0 <= c && 0 <= k <= |stack|
    requires k > 0 ==> stack[k - 1].height < Height(h, c)
    requires start == if k < |stack| then stack[k].start else c
    requires 0 <= start <= c && AllAtLeast(h, start, c, Height(h, c))
    ensures StackDescribes(h, stack[..k] + [Bar(start, Height(h, c))], c + 1)
  {
    var pushed := stack[..k] + [Bar(start, Height(h, c))];
    forall i {:trigger Covers(h, pushed, i, c + 1)} | 0 <= i < |pushed|
      ensures Covers(h, pushed, i, c + 1)
    {
      if i < k {
        assert Covers(h, stack, i, c);
        assert pushed[i] == stack[i] && stack[i].height <= stack[k - 1].height;
        assert Next(pushed, i, c + 1) == Next(stack, i, c);
        Widen(h, stack[i].start, c, stack[i].height);
      } else {
        Widen(h, start, c, Height(h, c));
      }
    }
    if k > 0 {
      assert pushed[0] == stack[0];
    } else if |stack| > 0 {
      assert start == stack[0].start;
    }
  }

  /** What is recorded for the histogram rectangle s, e, t of row r. */
  function Candidate(r: int, s: int, e: int, t: int): Best {
    (t * (e - s), Some(Rect(r - t + 1, r, s, e - 1)))
  }

  /** `better` is `best` itself or a larger rectangle standing on row r and ending before column c. */
  ghost predicate Improves(h: seq<int>, r: int, c: int, best: Best, better: Best) {
    better == best ||
    (better.0 > best.0 && exists s, e, t :: UnderHistogram(h, s, e, t) && e <= c && better == Candidate(r, s, e, t))
  }

  /** The best one was found above row r, or on it before column c was reached. */
  predicate FoundBefore(best: Best, r: int, c: int) {
    && best.0 >= 0 && (best.1.None? ==> best.0 == 0)
    && (best.1.Some? ==> best.1.value.r1 < r || (best.1.value.r1 == r && best.1.value.c1 + 1 < c))
  }

  lemma NonPositiveProduct(t: int, w: int)
    requires t <= 0 && 0 <= w
    ensures t * w <= 0
  {
  }

  lemma PoppedIsUnderHistogram(h: seq<int>, stack: seq<Bar>, i: int, c: int)
    requires StackDescribes(h, stack, c) && 0 <= c <= |h| && 0 <= i < |stack|
    requires stack[i].height * (c - stack[i].start) > 0
    ensures UnderHistogram(h, stack[i].start, c, stack[i].height)
  {
    assert Covers(h, stack, i, c);
    var t, w := stack[i].height, c - stack[i].start;
    if t < 1 {
      NonPositiveProduct(t, w);
    }
  }

  /** What has been recorded while the bars from k on were popped at column c. */
  ghost predicate Popped(stack: seq<Bar>, k: int, r: int, c: int, best: Best, better: Best)
    requires 0 <= k <= |stack|
  {
    && (better == best ||
        (better.0 > best.0 && exists i :: k <= i < |stack| && better == Candidate(r, stack[i].start, c, stack[i].height)))
    && forall i {:trigger stack[i]} :: k <= i < |stack| ==> Reported(stack[i], r, c, better)
  }

  /** Popping one more bar: recorded if it beats what was recorded, beaten by it otherwise. */
  lemma PopsOneMore(h: seq<int>, stack: seq<Bar>, k: int, r: int, c: int, best: Best, better: Best)
    requires StackDescribes(h, stack, c) && 0 <= c <= |h| && 0 < k <= |stack|
    requires FoundBefore(best, r, c) && Popped(stack, k, r, c, best, better)
    ensures var Bar(s, sh) := stack[k - 1];
            Popped(stack, k - 1, r, c, best,
                   if sh * (c - s) > better.0 then (sh * (c - s), Some(Rect(r - sh + 1, r, s, c - 1))) else better)
  {
    assert Covers(h, stack, k - 1, c);
    var Bar(s, sh) := stack[k - 1];
    var area := sh * (c - s);
    var after := if area > better.0 then Candidate(r, s, c, sh) else better;
    if area <= better.0 {
      LaterIsBeaten(h, stack, k, r, c, best, better);
    }
    forall i {:trigger stack[i]} | k - 1 <= i < |stack|
      ensures Reported(stack[i], r, c, after)
    {
      if i >= k && stack[i].height >= 1 {
        StillBeaten(stack[i].height * (c - stack[i].start), r, c - 1, stack[i].height, better, after);
      }
    }
    if better.0 > best.0 && area <= better.0 {
      var i :| k <= i < |stack| && better == Candidate(r, stack[i].start, c, stack[i].height);
      assert better == Candidate(r, stack[i].start, c, stack[i].height);
    }
  }

  lemma LaterIsBeaten(h: seq<int>, stack: seq<Bar>, k: int, r: int, c: int, best: Best, better: Best)
    requires StackDescribes(h, stack, c) && 0 <= c <= |h| && 0 < k <= |stack|
    requires FoundBefore(best, r, c) && Popped(stack, k, r, c, best, better)
    requires stack[k - 1].height * (c - stack[k - 1].start) <= better.0
    ensures Reported(stack[k - 1], r, c, better)
  {
    assert Covers(h, stack, k - 1, c);
    var Bar(s, sh) := stack[k - 1];
    if sh >= 1 {
      AreaMonotone(1, 1, sh, c - s);
    }
    if better != best {
      var i :| k <= i < |stack| && better == Candidate(r, stack[i].start, c, stack[i].height);
      assert better.1.value.Height() == stack[i].height > sh;
    }
  }

  lemma PoppedImproves(h: seq<int>, stack: seq<Bar>, k: int, r: int, c: int, best: Best, better: Best)
    requires StackDescribes(h, stack, c) && 0 <= c <= |h| && 0 <= k <= |stack|
    requires FoundBefore(best, r, c) && Popped(stack, k, r, c, best, better)
    ensures Improves(h, r, c, best, better) && FoundBefore(better, r, c + 1)
  {
    if better != best {
      var i :| k <= i < |stack| && better == Candidate(r, stack[i].start, c, stack[i].height);
      PoppedIsUnderHistogram(h, stack, i, c);
    }
  }

  /** Pops the bars that the bar of height `hc` at column c closes, recording the best of them. */
  method PopBars(ghost h: seq<int>, stack: seq<Bar>, c: int, hc: int, r: int, best: Best)
    returns (rest: seq<Bar>, start: int, better: Best)
    requires StackDescribes(h, stack, c) && 0 <= c <= |h| && hc == Height(h, c) && FoundBefore(best, r, c)
    ensures |rest| <= |stack| && rest == stack[..|rest|]
    ensures |rest| > 0 ==> rest[|rest| - 1].height < hc
    ensures start == if |rest| < |stack| then stack[|rest|].start else c
    ensures 0 <= start <= c && AllAtLeast(h, start, c, hc)
    ensures forall i {:trigger stack[i]} :: |rest| <= i < |stack| ==> Reported(stack[i], r, c, better)
    ensures Improves(h, r, c, best, better) && FoundBefore(better, r, c + 1)
  {
    rest, start, better := stack, c, best;
    while |rest| > 0 && rest[|rest| - 1].height >= hc
      invariant |rest| <= |stack| && rest == stack[..|rest|]
      invariant start == if |rest| < |stack| then stack[|rest|].start else c
      invariant 0 <= start <= c && AllAtLeast(h, start, c, hc)
      invariant Popped(stack, |rest|, r, c, best, better)
    {
      hide Reported;
      ghost var top := |rest| - 1;
      var Bar(s, sh) := rest[|rest| - 1];
      assert stack[top] == Bar(s, sh) && Covers(h, stack, top, c);
      PopsOneMore(h, stack, |rest|, r, c, best, better);
      rest := rest[..|rest| - 1];
      var area := sh * (c - s);
      if area > better.0 {
        better := (area, Some(Rect(r - sh + 1, r, s, c - 1)));
      }
      start := s;
    }
    PoppedImproves(h, stack, |rest|, r, c, best, better);
  }

  lemma ImprovesOn(h: seq<int>, r: int, c: int, a: Best, b: Best, d: Best)
    requires Improves(h, r, c, a, b) && Improves(h, r, c + 1, b, d)
    ensures Improves(h, r, c + 1, a, d) && Grew(b, d)
  {
    if b != a && d == b {
      var s, e, t :| UnderHistogram(h, s, e, t) && e <= c && b == Candidate(r, s, e, t);
      assert e <= c + 1;
    }
  }

  /** One row of the scan: the first largest rectangle standing on row r improves `best`. */
  method SweepRow(heights: array<int>, r: int, best: Best) returns (better: Best)
    requires FoundBefore(best, r, 0)
    ensures Improves(heights[..], r, heights.Length + 1, best, better) && FoundBefore(better, r + 1, 0)
    ensures forall s, e, t :: UnderHistogram(heights[..], s, e, t) ==> Fits(r, s, e, t, better)
  {
    ghost var h := heights[..];
    better := best;
    var stack: seq<Bar> := [];
    var c := 0;
    while c <= heights.Length
      invariant 0 <= c <= heights.Length + 1
      invariant StackDescribes(h, stack, c) && FoundBefore(better, r, c)
      invariant Improves(h, r, c, best, better)
      invariant Settled(h, r, c, better)
    {
      hide StackDescribes, Settled, Reported, Improves, AllAtLeast, FoundBefore;
      var hc := if c < heights.Length then heights[c] else 0;
      var rest, start, improved := PopBars(h, stack, c, hc, r, better);
      WidenImproves(h, r, c, better, improved);
      ImprovesOn(h, r, c, best, better, improved);
      SettleColumn(h, stack, |rest|, r, c, better, improved);
      PushKeepsDescription(h, stack, |rest|, c, start);
      better := improved;
      stack := rest + [Bar(start, hc)];
      c := c + 1;
    }
    forall s, e, t | UnderHistogram(h, s, e, t)
      ensures Fits(r, s, e, t, better)
    {
      assert !AllAtLeast(h, s, c, t) by { assert Height(h, |h|) == 0; }
    }
  }

  lemma WidenImproves(h: seq<int>, r: int, c: int, best: Best, better: Best)
    requires Improves(h, r, c, best, better)
    ensures Improves(h, r, c + 1, best, better)
  {
    if better != best {
      var s, e, t :| UnderHistogram(h, s, e, t) && e <= c && better == Candidate(r, s, e, t);
      assert e <= c + 1;
    }
  }

  /** h[c] counts the consecutive True cells of column c that end at row r. */
  ghost predicate Runs(m: array2<bool>, h: seq<int>, r: int)
    requires r < m.Length0
    reads m
  {
    && |h| == m.Length1
    && forall c {:trigger h[c]} :: 0 <= c < |h| ==> RunAt(m, c, r, h[c])
  }

  ghost predicate RunAt(m: array2<bool>, c: int, r: int, k: int)
    requires r < m.Length0 && 0 <= c < m.Length1
    reads m
  {
    && 0 <= k <= r + 1
    && (forall i :: r - k < i <= r ==> m[i, c])
    && (k <= r ==> !m[r - k, c])
  }

  lemma RunCovers(m: array2<bool>, c: int, r: int, k: int, t: int)
    requires 0 <= r < m.Length0 && 0 <= c < m.Length1 && RunAt(m, c, r, k)
    requires t <= r + 1 && forall i :: r - t < i <= r ==> m[i, c]
    ensures t <= k
  {
  }

  /** The rectangles under the histogram of row r are exactly the free ones standing on it. */
  lemma HistogramMeansFree(m: array2<bool>, h: seq<int>, r: int, s: int, e: int, t: int)
    requires 0 <= r < m.Length0 && Runs(m, h, r)
    ensures UnderHistogram(h, s, e, t)
       <==> FreeRect(TrueCells(m), m.Length0, m.Length1, Rect(r - t + 1, r, s, e - 1))
  {
    var b := Rect(r - t + 1, r, s, e - 1);
    if UnderHistogram(h, s, e, t) {
      assert h[s] >= t by { assert Height(h, s) >= t; }
      forall p | p in b.Cells()
        ensures p in TrueCells(m)
      {
        assert Height(h, p.c) >= t;
        assert m[p.r, p.c];
      }
    }
    if FreeRect(TrueCells(m), m.Length0, m.Length1, b) {
      forall y | s <= y < e
        ensures Height(h, y) >= t
      {
        forall i | r - t < i <= r
          ensures m[i, y]
        {
          assert Cell(i, y) in b.Cells();
        }
        RunCovers(m, y, r, h[y], t);
      }
    }
  }

  /** What the scan knows of the rows above r. */
  ghost predicate BestAbove(m: array2<bool>, r: int, best: Best)
    reads m
  {
    && (forall o: Rect :: FreeRect(TrueCells(m), m.Length0, m.Length1, o) && o.r1 < r ==>
          Beaten(o.Area(), o.r1, o.c1, o.Height(), best))
    && (best.1.None? ==> best.0 == 0)
    && (best.1.Some? ==>
          && FreeRect(TrueCells(m), m.Length0, m.Length1, best.1.value)
          && best.1.value.Area() == best.0 && best.1.value.r1 < r)
  }

  lemma SweepExtends(m: array2<bool>, h: seq<int>, r: int, c: int, best: Best, better: Best)
    requires 0 <= r < m.Length0 && Runs(m, h, r) && BestAbove(m, r, best)
    requires Improves(h, r, c, best, better)
    requires forall s, e, t :: UnderHistogram(h, s, e, t) ==> Fits(r, s, e, t, better)
    ensures BestAbove(m, r + 1, better)
  {
    hide Runs, TrueCells, UnderHistogram, Beaten;
    forall o: Rect | FreeRect(TrueCells(m), m.Length0, m.Length1, o) && o.r1 < r + 1
      ensures Beaten(o.Area(), o.r1, o.c1, o.Height(), better)
    {
      if o.r1 == r {
        HistogramMeansFree(m, h, r, o.c0, o.c1 + 1, o.Height());
        assert Rect(r - o.Height() + 1, r, o.c0, o.c1) == o;
        assert Fits(r, o.c0, o.c1 + 1, o.Height(), better);
      } else {
        StillBeaten(o.Area(), o.r1, o.c1, o.Height(), best, better);
      }
    }
    if better != best {
      var s, e, t :| UnderHistogram(h, s, e, t) && e <= c && better == Candidate(r, s, e, t);
      HistogramMeansFree(m, h, r, s, e, t);
    }
  }

  /** Moves the run lengths from row r - 1 to row r. */
  method NextRow(m: array2<bool>, r: int, heights: array<int>)
    requires 0 <= r < m.Length0 && Runs(m, heights[..], r - 1)
    modifies heights
    ensures Runs(m, heights[..], r)
  {
    ghost var h := heights[..];
    for c := 0 to heights.Length
      invariant heights.Length == m.Length1
      invariant forall k :: 0 <= k < c ==> RunAt(m, k, r, heights[k])
      invariant forall k :: c <= k < heights.Length ==> heights[k] == h[k]
    {
      assert RunAt(m, c, r - 1, h[c]);
      heights[c] := if m[r, c] then heights[c] + 1 else 0;
    }
  }

  lemma CellIsRect(m: array2<bool>, p: Cell)
    requires p in TrueCells(m)
    ensures FreeRect(TrueCells(m), m.Length0, m.Length1, Rect(p.r, p.r, p.c, p.c))
    ensures Rect(p.r, p.r, p.c, p.c).Area() == 1
  {
    assert Rect(p.r, p.r, p.c, p.c).Cells() == {p};
  }

  /** What the scan knows after the last row. */
  lemma ScanDone(m: array2<bool>, best: Best)
    requires BestAbove(m, m.Length0, best)
    ensures best.1.None? <==> TrueCells(m) == {}
    ensures best.1.Some? ==>
              && IsLargest(TrueCells(m), m.Length0, m.Length1, best.1.value)
              && ComesFirst(TrueCells(m), m.Length0, m.Length1, best.1.value)
  {
    if p :| p in TrueCells(m) {
      CellIsRect(m, p);
    }
    if best.1.Some? {
      assert Cell(best.1.value.r0, best.1.value.c0) in best.1.value.Cells();
    }
  }

  /**
   The largest all-True rectangle of the mask, or None when no cell is True; of several
   the first to end, by row and column, and of those that end together the tallest.
   */
  method LargestRect(m: array2<bool>) returns (box: Option<Rect>)
    ensures box.None? <==> TrueCells(m) == {}
    ensures box.Some? ==>
              && IsLargest(TrueCells(m), m.Length0, m.Length1, box.value)
              && ComesFirst(TrueCells(m), m.Length0, m.Length1, box.value)
  {
    var heights := new int[m.Length1](_ => 0);
    var best: Best := (0, None);
    StartOfScan(m, heights[..]);
    hide Runs, BestAbove, Improves, TrueCells, IsLargest, ComesFirst, UnderHistogram, Fits, FoundBefore;
    var r := 0;
    while r < m.Length0
      invariant 0 <= r <= m.Length0 && fresh(heights)
      invariant Runs(m, heights[..], r - 1)
      invariant BestAbove(m, r, best) && FoundBefore(best, r, 0)
    {
      NextRow(m, r, heights);
      var better := SweepRow(heights, r, best);
      SweepExtends(m, heights[..], r, heights.Length + 1, best, better);
      best := better;
      r := r + 1;
    }
    ScanDone(m, best);
    box := best.1;
  }

  lemma StartOfScan(m: array2<bool>, h: seq<int>)
    requires |h| == m.Length1 && forall c :: 0 <= c < |h| ==> h[c] == 0
    ensures Runs(m, h, -1) && BestAbove(m, 0, (0, None)) && FoundBefore((0, None), 0, 0)
  {
  }
}
