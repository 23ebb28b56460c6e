/**
 What the campaign ledger records: one entry per key with the current attempt and the
 snapshots of the attempts before it, compared with the attempts that were really started.
 */
module Ledger {
  /** A cell of the run matrix; the seed is given by its decimal text. */
  datatype Cell = Cell(task: string, condition: string, seed: string)

  function RunKey(cell: Cell): string {
    cell.task + "__" + cell.condition + "__seed" + cell.seed
  }

  /** Without two underscores in a row, and not ending in one. */
  predicate Plain(name: string) {
    && (forall i :: 0 <= i < |name| - 1 ==> !(name[i] == '_' && name[i + 1] == '_'))
    && (name != "" ==> name[|name| - 1] != '_')
  }

  lemma EndsNoLater(x: string, y: string, u: string, v: string)
    requires Plain(u) && x + "__" + y == u + "__" + v
    ensures |u| <= |x|
  {
    var s := x + "__" + y;
    assert s[|x|] == '_' && s[|x| + 1] == '_';
    assert forall i {:trigger s[i]} :: 0 <= i < |u| ==> s[i] == (u + "__" + v)[i] == u[i];
  }

  /** A plain name ends before the first pair of underscores. */
  lemma PlainEndsFirst(x: string, y: string, u: string, v: string)
    requires Plain(x) && Plain(u) && x + "__" + y == u + "__" + v
    ensures x == u && y == v
  {
    var s := x + "__" + y;
    EndsNoLater(x, y, u, v);
    EndsNoLater(u, v, x, y);
    assert x == s[..|x|] == u;
    assert y == s[|x| + 2..] == v;
  }

  /** Cells with plain names have different keys; so have cells that differ in the seed alone, whatever the names. */
  lemma KeysTellCells(a: Cell, b: Cell)
    ensures Plain(a.task) && Plain(a.condition) && Plain(b.task) && Plain(b.condition) ==> (RunKey(a) == RunKey(b) <==> a == b)
    ensures a.task == b.task && a.condition == b.condition ==> (RunKey(a) == RunKey(b) <==> a.seed == b.seed)
  {
    if RunKey(a) == RunKey(b) {
      var x, y := a.condition + "__" + ("seed" + a.seed), b.condition + "__" + ("seed" + b.seed);
      assert RunKey(a) == a.task + "__" + x && RunKey(b) == b.task + "__" + y;
      if Plain(a.task) && Plain(a.condition) && Plain(b.task) && Plain(b.condition) {
        PlainEndsFirst(a.task, x, b.task, y);
        PlainEndsFirst(a.condition, "seed" + a.seed, b.condition, "seed" + b.seed);
        assert a.seed == ("seed" + a.seed)[4..] && b.seed == ("seed" + b.seed)[4..];
      }
      if a.task == b.task && a.condition == b.condition {
        var n := |a.task| + 2 + |a.condition| + 2 + 4;
        assert RunKey(a)[n..] == a.seed && RunKey(b)[n..] == b.seed;
      }
    }
  }

  /** With an underscore at the border of two names, different cells can have one key. */
  lemma KeysCanAgree()
    ensures RunKey(Cell("a_", "b", "1")) == RunKey(Cell("a", "_b", "1")) == "a___b__seed1"
  {
  }

  datatype Outcome = Pending | InfraInvalid | GoalReached | TimedOut | Stuck | LoiterTimeout

  /** Only a physical outcome settles a cell. */
  predicate Settles(outcome: Outcome) { outcome != Pending && outcome != InfraInvalid }

  datatype Attempt = Attempt(id: nat, isolated: bool, outcome: Outcome)

  datatype Entry = Entry(cell: Cell, current: Attempt, attempts: seq<Attempt>)

  type Log = map<string, Entry>

  /** The attempts a new entry for the key inherits: the old entry's history and its snapshot. */
  function PriorOf(log: Log, key: string): seq<Attempt> {
    if key in log then log[key].attempts + [log[key].current] else []
  }

  predicate Settled(log: Log, key: string) {
    key in log && Settles(log[key].current.outcome)
  }

  // ---------------------------------------------------------------- what really happened

  /** An attempt whose first ledger write went through. */
  datatype Commit = Commit(key: string, id: nat)

  /** The ledger on disk beside the attempts committed so far. */
  datatype View = View(disk: Log, committed: seq<Commit>)

  ghost function Ids(attempts: seq<Attempt>): seq<nat> {
    seq(|attempts|, i requires 0 <= i < |attempts| => attempts[i].id)
  }

  /** The committed attempts of one key, in order. */
  ghost function IdsOf(committed: seq<Commit>, key: string): seq<nat> {
    if committed == [] then []
    else
      var last := committed[|committed| - 1];
      var before := IdsOf(committed[..|committed| - 1], key);
      if last.key == key then before + [last.id] else before
  }

  /** The key's history and current entry list exactly its committed attempts, in order. */
  ghost predicate Accounted(v: View, key: string) {
    Ids(PriorOf(v.disk, key)) == IdsOf(v.committed, key)
  }

  ghost predicate AllAccounted(v: View) { forall key :: Accounted(v, key) }

  ghost predicate SameEntry(a: Log, b: Log, key: string) {
    && (key in a <==> key in b)
    && (key in a ==> a[key] == b[key])
  }

  /** Only attempts that settled nothing were ever superseded. */
  ghost predicate OnlyUnsettledSuperseded(log: Log) {
    forall key, i {:trigger log[key].attempts[i]} :: key in log && 0 <= i < |log[key].attempts| ==> !Settles(log[key].attempts[i].outcome)
  }

  /** Attempt ids were issued in order. */
  ghost predicate InOrder(committed: seq<Commit>, issued: nat) {
    && (forall i :: 0 <= i < |committed| ==> committed[i].id < issued)
    && (forall i, j :: 0 <= i < j < |committed| ==> committed[i].id < committed[j].id)
  }

  lemma IdsAppend(prior: seq<Attempt>, current: Attempt)
    ensures Ids(prior + [current]) == Ids(prior) + [current.id]
  {
  }

  lemma IdsOfAppend(committed: seq<Commit>, c: Commit, key: string)
    ensures IdsOf(committed + [c], key) == IdsOf(committed, key) + if c.key == key then [c.id] else []
  {
    assert (committed + [c])[..|committed|] == committed;
  }

  /** The view after an attempt that inherits `prior` has written its first entry. */
  ghost function AfterCommit(v: View, key: string, entry: Entry): View {
    View(v.disk[key := entry], v.committed + [Commit(key, entry.current.id)])
  }

  /** A commit changes nothing about other keys, and for its own key what it inherits decides. */
  lemma CommitAccounts(v: View, key: string, entry: Entry, other: string)
    ensures var w := AfterCommit(v, key, entry);
            if other == key then
              Accounted(w, key) <==> Ids(entry.attempts) == IdsOf(v.committed, key)
            else
              SameEntry(v.disk, w.disk, other) && IdsOf(w.committed, other) == IdsOf(v.committed, other)
  {
    IdsAppend(entry.attempts, entry.current);
    IdsOfAppend(v.committed, Commit(key, entry.current.id), other);
    if other == key {
      var a, b, x := Ids(entry.attempts), IdsOf(v.committed, key), [entry.current.id];
      if a + x == b + x {
        assert |a + x| == |b + x|;
        assert a == (a + x)[..|a|] == (b + x)[..|b|] == b;
      }
    }
  }

  // ---------------------------------------------------------------- one run of the program

  /** The key of the first attempt committed since `start`. */
  ghost function FirstKey(start: View, now: View): string
    requires |start.committed| < |now.committed|
  {
    now.committed[|start.committed|].key
  }

  /**
   What a run that began with the ledger `start` and with `memory` as its own copy has done
   by the time the ledger is `now` and its copy is `log`.
   */
  ghost predicate Session(start: View, memory: Log, now: View, log: Log) {
    && start.committed <= now.committed
    && (|now.committed| == |start.committed| ==> now == start && log == memory)
    && (|now.committed| > |start.committed| ==> log == now.disk && FirstDecides(start, memory, now))
    && (forall key :: Unattempted(start, now, key) ==> SameEntry(start.disk, now.disk, key))
  }

  ghost predicate Unattempted(start: View, now: View, key: string) {
    forall i :: |start.committed| <= i < |now.committed| ==> now.committed[i].key != key
  }

  /**
   Every key but the first attempted is accounted for exactly if it was before; the first
   one exactly if the run's own copy knew all of its earlier attempts.
   */
  ghost predicate FirstDecides(start: View, memory: Log, now: View)
    requires |start.committed| < |now.committed|
  {
    var first := FirstKey(start, now);
    && (forall key :: key != first ==> (Accounted(now, key) <==> Accounted(start, key)))
    && (Accounted(now, first) <==> Ids(PriorOf(memory, first)) == IdsOf(start.committed, first))
  }

  lemma SessionBegins(start: View, memory: Log)
    ensures Session(start, memory, start, memory)
  {
    hide Accounted;
  }

  lemma SessionCommits(start: View, memory: Log, now: View, log: Log, key: string, entry: Entry)
    requires Session(start, memory, now, log) && entry.attempts == PriorOf(log, key)
    ensures var after := AfterCommit(now, key, entry);
            Session(start, memory, after, after.disk)
  {
    var after := AfterCommit(now, key, entry);
    FirstStillDecides(start, memory, now, log, key, entry);
    forall k | Unattempted(start, after, k)
      ensures SameEntry(start.disk, after.disk, k)
    {
      assert after.committed[|now.committed|].key == key;
      assert Unattempted(start, now, k) by {
        forall i | |start.committed| <= i < |now.committed|
          ensures now.committed[i].key != k
        {
          assert after.committed[i] == now.committed[i];
        }
      }
    }
  }

  lemma FirstStillDecides(start: View, memory: Log, now: View, log: Log, key: string, entry: Entry)
    requires Session(start, memory, now, log) && entry.attempts == PriorOf(log, key)
    ensures FirstDecides(start, memory, AfterCommit(now, key, entry))
  {
    var after := AfterCommit(now, key, entry);
    forall k
      ensures if k == key then Accounted(after, k) <==> Ids(PriorOf(log, key)) == IdsOf(now.committed, key)
              else Accounted(after, k) <==> Accounted(now, k)
    {
      CommitAccounts(now, key, entry, k);
    }
    hide Ids, IdsOf, PriorOf;
    if |now.committed| > |start.committed| {
      assert after.committed[|start.committed|] == now.committed[|start.committed|];
    }
  }

  /** The key is the first the run attempted. */
  ghost predicate AttemptedFirst(start: View, now: View, key: string) {
    |now.committed| > |start.committed| && FirstKey(start, now) == key
  }

  /** A key that the ledger shows settled is attempted at most as the first of the run. */
  ghost predicate LeavesSettledAlone(start: View, now: View) {
    forall key :: Settled(start.disk, key) && !AttemptedFirst(start, now, key) ==> Unattempted(start, now, key)
  }

  lemma SettledStaysAlone(start: View, memory: Log, now: View, log: Log, key: string, entry: Entry)
    requires Session(start, memory, now, log) && LeavesSettledAlone(start, now)
    requires !Settled(log, key)
    ensures LeavesSettledAlone(start, AfterCommit(now, key, entry))
  {
    hide Accounted;
    var after := AfterCommit(now, key, entry);
    forall k | Settled(start.disk, k) && !AttemptedFirst(start, after, k)
      ensures Unattempted(start, after, k)
    {
      assert |now.committed| > |start.committed| ==> FirstKey(start, after) == FirstKey(start, now);
      assert Unattempted(start, now, k);
      assert k != key;
      forall i | |start.committed| <= i < |after.committed|
        ensures after.committed[i].key != k
      {
        if i < |now.committed| {
          assert after.committed[i] == now.committed[i];
        }
      }
    }
  }

  lemma SupersededStayUnsettled(log: Log, key: string, entry: Entry)
    requires OnlyUnsettledSuperseded(log) && !Settled(log, key) && entry.attempts == PriorOf(log, key)
    ensures OnlyUnsettledSuperseded(log[key := entry])
  {
    var more := log[key := entry];
    forall k, i {:trigger more[k].attempts[i]} | k in more && 0 <= i < |more[k].attempts|
      ensures !Settles(more[k].attempts[i].outcome)
    {
      if k == key {
        if key in log && i < |log[key].attempts| {
          assert entry.attempts[i] == log[key].attempts[i];
        }
      } else {
        assert more[k] == log[k];
      }
    }
  }

  // ---------------------------------------------------------------- what an accounted ledger says

  ghost predicate Increasing(ids: seq<nat>, bound: nat) {
    && (forall i :: 0 <= i < |ids| ==> ids[i] < bound)
    && (forall i, j :: 0 <= i < j < |ids| ==> ids[i] < ids[j])
  }

  lemma {:induction false} IdsInOrder(committed: seq<Commit>, issued: nat, key: string)
    requires InOrder(committed, issued)
    ensures Increasing(IdsOf(committed, key), issued)
    decreases |committed|
  {
    if committed != [] {
      var n := |committed| - 1;
      var init, last := committed[..n], committed[n];
      assert InOrder(init, last.id);
      IdsInOrder(init, last.id, key);
      assert IdsOf(committed, key) == IdsOf(init, key) + if last.key == key then [last.id] else [];
    }
  }

  /** In an accounted ledger no attempt is listed twice and none out of order. */
  lemma HistoriesHaveNoRepeats(v: View, issued: nat, key: string, i: nat, j: nat)
    requires AllAccounted(v) && InOrder(v.committed, issued) && i < j < |PriorOf(v.disk, key)|
    ensures PriorOf(v.disk, key)[i].id < PriorOf(v.disk, key)[j].id
  {
    assert Accounted(v, key);
    IdsInOrder(v.committed, issued, key);
    var ids := Ids(PriorOf(v.disk, key));
    assert ids == IdsOf(v.committed, key);
    assert ids[i] < ids[j];
  }
}
