/**
 The campaign runner: it walks the run matrix, skips settled cells, attempts the others
 and writes each attempt to the ledger three times.  A crash may cut a run off anywhere.
 */
module CampaignRunner {
  import opened Ledger

  type Verdict = o: Outcome | o != Pending witness InfraInvalid

  /** How far an attempt gets before the runner dies, or its verdict. */
  datatype Fate = NotCommitted | DiesStarting | DiesRunning | Finishes(verdict: Verdict)

  /**
   One run of the program.  `trusted` is the comparison of a settled entry with the
   configuration; `fates` says what becomes of each cell if it is attempted.
   */
  datatype Options = Options(
    resume: bool, maxNewRuns: nat, matrix: seq<Cell>, fates: seq<Fate>, trusted: (Cell, Entry) -> bool)

  /** A physical outcome counts only if the finished entry passes the comparison itself. */
  function Checked(cell: Cell, entry: Entry, trusted: (Cell, Entry) -> bool): Entry {
    if Settles(entry.current.outcome) && !trusted(cell, entry) then
      entry.(current := entry.current.(outcome := InfraInvalid))
    else entry
  }

  /** The entry that an attempt leaves behind. */
  function EntryOf(cell: Cell, id: nat, prior: seq<Attempt>, fate: Fate, trusted: (Cell, Entry) -> bool): Entry
    requires !fate.NotCommitted?
  {
    if fate.Finishes? then Checked(cell, Entry(cell, Attempt(id, true, fate.verdict), prior), trusted)
    else Entry(cell, Attempt(id, fate.DiesRunning?, Pending), prior)
  }

  // ---------------------------------------------------------------- the first cell attempted

  /** The run passes this cell over: its own copy shows it settled. */
  predicate PassedOver(o: Options, memory: Log, i: nat)
    requires i < |o.matrix|
  {
    o.resume && Settled(memory, RunKey(o.matrix[i]))
  }

  /** The first cell from i on that the run does not pass over; |o.matrix| if there is none. */
  function FirstOpen(o: Options, memory: Log, i: nat): (f: nat)
    requires i <= |o.matrix|
    ensures i <= f <= |o.matrix|
    decreases |o.matrix| - i
  {
    if i < |o.matrix| && PassedOver(o, memory, i) then FirstOpen(o, memory, i + 1) else i
  }

  lemma {:induction false} FirstOpenIsFirst(o: Options, memory: Log, i: nat, j: nat)
    requires i <= j < |o.matrix|
    ensures j < FirstOpen(o, memory, i) ==> PassedOver(o, memory, j)
    ensures j == FirstOpen(o, memory, i) ==> !PassedOver(o, memory, j)
    decreases |o.matrix| - i
  {
    if i < |o.matrix| && PassedOver(o, memory, i) && i < j {
      FirstOpenIsFirst(o, memory, i + 1, j);
    }
  }

  /** The settled entries before cell n match the configuration. */
  predicate TrustedUpTo(o: Options, memory: Log, n: nat)
    requires n <= |o.matrix|
  {
    forall j :: 0 <= j < n && PassedOver(o, memory, j) ==> o.trusted(o.matrix[j], memory[RunKey(o.matrix[j])])
  }

  /**
   Whether the run will write anything at all: apart from the fate of its first attempt,
   this is known before it starts.
   */
  predicate Starts(o: Options, memory: Log)
    requires |o.fates| == |o.matrix|
  {
    var f := FirstOpen(o, memory, 0);
    f < |o.matrix| && TrustedUpTo(o, memory, f) && !o.fates[f].NotCommitted?
  }

  /** The key of the first cell such a run attempts. */
  function FirstCellKey(o: Options, memory: Log): string
    requires |o.fates| == |o.matrix| && Starts(o, memory)
  {
    RunKey(o.matrix[FirstOpen(o, memory, 0)])
  }

  /** What a run has attempted by the time it comes to cell i. */
  ghost predicate Lead(o: Options, start: View, memory: Log, now: View, newRuns: map<string, nat>, i: nat)
    requires i <= |o.matrix| == |o.fates|
  {
    var f := FirstOpen(o, memory, 0);
    if |now.committed| <= |start.committed| then
      i <= f && newRuns == map[] && TrustedUpTo(o, memory, i)
    else f < i && Starts(o, memory) && FirstKey(start, now) == RunKey(o.matrix[f])
  }

  // ---------------------------------------------------------------- the new runs allowed per condition

  /** The cells before cell i of one condition that the run does not pass over. */
  function OpenBefore(o: Options, memory: Log, condition: string, i: nat): nat
    requires i <= |o.matrix|
  {
    if i == 0 then 0
    else OpenBefore(o, memory, condition, i - 1)
         + if o.matrix[i - 1].condition == condition && !PassedOver(o, memory, i - 1) then 1 else 0
  }

  /** Cell i is open and among the first of its condition, as many as one run may attempt. */
  predicate Chosen(o: Options, memory: Log, i: nat)
    requires i < |o.matrix|
  {
    && !PassedOver(o, memory, i)
    && (o.maxNewRuns > 0 ==> OpenBefore(o, memory, o.matrix[i].condition, i) < o.maxNewRuns)
  }

  /** The entry is one that an attempt of cell i leaves behind when it gets to its end. */
  ghost predicate Resulted(o: Options, i: nat, entry: Entry)
    requires i < |o.matrix| == |o.fates|
  {
    && o.fates[i].Finishes?
    && exists id, prior :: entry == EntryOf(o.matrix[i], id, prior, o.fates[i], o.trusted)
  }

  /** Of the cells before cell i exactly the chosen ones have been attempted, and with what result. */
  ghost predicate AttemptsChosen(o: Options, start: View, now: View, i: nat)
    requires i <= |o.matrix| == |o.fates|
  {
    forall j :: 0 <= j < |o.matrix| ==> AttemptedIfChosen(o, start, now, i, j)
  }

  ghost predicate AttemptedIfChosen(o: Options, start: View, now: View, i: nat, j: nat)
    requires i <= |o.matrix| == |o.fates| && j < |o.matrix|
  {
    var key := RunKey(o.matrix[j]);
    if j < i && Chosen(o, start.disk, j) then
      !Unattempted(start, now, key) && key in now.disk && Resulted(o, j, now.disk[key])
    else Unattempted(start, now, key) && SameEntry(start.disk, now.disk, key)
  }

  function NewRuns(newRuns: map<string, nat>, condition: string): nat {
    if condition in newRuns then newRuns[condition] else 0
  }

  /** The count of new runs of a condition is the number of its open cells, up to the limit. */
  ghost predicate Count(o: Options, memory: Log, newRuns: map<string, nat>, i: nat, condition: string)
    requires i <= |o.matrix|
  {
    var n := OpenBefore(o, memory, condition, i);
    NewRuns(newRuns, condition) == if o.maxNewRuns > 0 && n > o.maxNewRuns then o.maxNewRuns else n
  }

  ghost predicate Counts(o: Options, memory: Log, newRuns: map<string, nat>, i: nat)
    requires i <= |o.matrix|
  {
    forall condition :: Count(o, memory, newRuns, i, condition)
  }

  /** How the pass spends its new runs when its copy is up to date and no two cells share a key. */
  ghost predicate Spends(o: Options, start: View, memory: Log, now: View, newRuns: map<string, nat>, i: nat)
    requires i <= |o.matrix| == |o.fates|
  {
    memory == start.disk && DistinctKeys(o.matrix) ==>
      Counts(o, memory, newRuns, i) && AttemptsChosen(o, start, now, i)
  }

  class LedgerFile {
    var entries: Log
    var issued: nat
    ghost var committed: seq<Commit>

    constructor ()
      ensures entries == map[] && issued == 0 && committed == []
    {
      entries, issued, committed := map[], 0, [];
    }

    ghost function Seen(): View
      reads this
    {
      View(entries, committed)
    }

    /** Replaces one entry on disk and returns the whole ledger as it now is. */
    method Update(key: string, entry: Entry) returns (ledger: Log)
      modifies this`entries
      ensures entries == old(entries)[key := entry] && ledger == entries
    {
      ledger := entries[key := entry];
      entries := ledger;
    }
  }

  class Runner {
    const file: LedgerFile
    const options: Options
    var log: Log

    /** `read` is the ledger as it was when the program started. */
    constructor (file: LedgerFile, options: Options, read: Log)
      ensures this.file == file && this.options == options
      ensures log == if options.resume then read else map[]
    {
      this.file, this.options := file, options;
      log := if options.resume then read else map[];
    }

    /** One attempt at a cell. */
    method RunCell(cell: Cell, fate: Fate) returns (alive: bool)
      modifies this`log, file
      ensures alive <==> fate.Finishes?
      ensures file.issued == old(file.issued) + 1
      ensures fate.NotCommitted? ==> file.Seen() == old(file.Seen()) && log == old(log)
      ensures !fate.NotCommitted? ==>
                var entry := EntryOf(cell, old(file.issued), PriorOf(old(log), RunKey(cell)), fate, options.trusted);
                file.Seen() == AfterCommit(old(file.Seen()), RunKey(cell), entry) && log == file.entries
    {
      hide RunKey, PriorOf, Settles;
      var key, id := RunKey(cell), file.issued;
      file.issued := id + 1;
      if fate.NotCommitted? {
        return false;
      }
      var entry := Entry(cell, Attempt(id, false, Pending), PriorOf(log, key));
      log := file.Update(key, entry);
      file.committed := file.committed + [Commit(key, id)];
      if fate.DiesStarting? {
        return false;
      }
      entry := entry.(current := entry.current.(isolated := true));
      log := file.Update(key, entry);
      if fate.DiesRunning? {
        return false;
      }
      entry := entry.(current := entry.current.(outcome := fate.verdict));
      log := file.Update(key, Checked(cell, entry, options.trusted));
      alive := true;
    }

    /** Comes to one cell of the matrix; False when the run ends there. */
    method Visit(i: nat, newRuns: map<string, nat>, ghost start: View, ghost memory: Log)
      returns (more: map<string, nat>, going: bool)
      requires i < |options.matrix| == |options.fates|
      requires Pass(options, start, memory, file.Seen(), log, file.issued, newRuns, i)
      requires Spends(options, start, memory, file.Seen(), newRuns, i)
      modifies this`log, file
      ensures going ==> Pass(options, start, memory, file.Seen(), log, file.issued, more, i + 1)
      ensures going ==> Spends(options, start, memory, file.Seen(), more, i + 1)
      ensures !going ==>
                && Sound(options, start, memory, file.Seen(), log, file.issued)
                && Leads(options, start, memory, file.Seen()) && !Unhindered(options, memory, start.disk)
    {
      hide Sound, Pass, Spends, Leads, Unhindered, RunKey, PriorOf, EntryOf, AfterCommit, NewRuns;
      ghost var now, before, id := file.Seen(), log, file.issued;
      var cell := options.matrix[i];
      var key := RunKey(cell);
      more := newRuns;
      if options.resume && Settled(log, key) {
        going := options.trusted(cell, log[key]);
        if going {
          SpendsNothing(options, start, memory, now, log, id, newRuns, i);
          PassSkips(options, start, memory, now, log, id, newRuns, i);
        } else {
          PassMismatch(options, start, memory, now, log, id, newRuns, i);
        }
        return;
      }
      var count := NewRuns(newRuns, cell.condition);
      if options.maxNewRuns > 0 && count >= options.maxNewRuns {
        SpendsNothing(options, start, memory, now, log, id, newRuns, i);
        SomeRun(newRuns, cell.condition);
        PassDefers(options, start, memory, now, log, id, newRuns, i);
        return newRuns, true;
      }
      more := newRuns[cell.condition := count + 1];
      going := RunCell(cell, options.fates[i]);
      if going {
        SpendsOne(options, start, memory, now, before, id, newRuns, i);
      }
      PassAttempts(options, start, memory, now, before, id, newRuns, i, more);
    }

    /**
     The pass over the run matrix.  False when a crash cuts it off, or a settled entry that
     does not match the configuration.
     */
    method RunMatrix() returns (finished: bool)
      requires |options.fates| == |options.matrix| && InOrder(file.committed, file.issued)
      modifies this, file
      ensures Sound(options, old(file.Seen()), old(log), file.Seen(), log, file.issued)
      ensures Leads(options, old(file.Seen()), old(log), file.Seen())
      ensures Unhindered(options, old(log), old(file.entries)) ==> finished
      ensures finished && old(log == file.entries) ==> TrustedUpTo(options, old(log), |options.matrix|)
      ensures finished && options.maxNewRuns == 0 && old(log == file.entries) ==>
                RecordedUpTo(file.entries, options.matrix, |options.matrix|)
      ensures finished && old(log == file.entries) && DistinctKeys(options.matrix) ==>
                AttemptsChosen(options, old(file.Seen()), file.Seen(), |options.matrix|)
    {
      ghost var start, memory := file.Seen(), log;
      var newRuns: map<string, nat> := map[];
      PassBegins(options, start, memory, file.issued);
      NothingSpent(options, start, memory);
      hide Sound, Pass, Spends, Leads, Unhindered, TrustedUpTo, RecordedUpTo, InOrder, AttemptsChosen, DistinctKeys;
      for i := 0 to |options.matrix|
        invariant Pass(options, start, memory, file.Seen(), log, file.issued, newRuns, i)
        invariant Spends(options, start, memory, file.Seen(), newRuns, i)
      {
        newRuns, finished := Visit(i, newRuns, start, memory);
        if !finished {
          return;
        }
      }
      PassEnds(options, start, memory, file.Seen(), log, file.issued, newRuns);
      SpentOnTheChosen(options, start, memory, file.Seen(), newRuns);
      finished := true;
    }
  }

  ghost predicate AllFinish(fates: seq<Fate>) {
    forall i :: 0 <= i < |fates| ==> fates[i].Finishes?
  }

  ghost predicate OneCellPerKey(matrix: seq<Cell>) {
    forall i, j :: 0 <= i < |matrix| && 0 <= j < |matrix| && RunKey(matrix[i]) == RunKey(matrix[j]) ==>
      matrix[i] == matrix[j]
  }

  /** No crash, and no settled entry that the run can meet fails the comparison. */
  ghost predicate Unhindered(o: Options, memory: Log, disk: Log) {
    && AllFinish(o.fates) && OneCellPerKey(o.matrix)
    && TrustedUpTo(o, memory, |o.matrix|) && TrustedUpTo(o, disk, |o.matrix|)
  }

  /** Whether the run writes at all, and for which cell first. */
  ghost predicate Leads(o: Options, start: View, memory: Log, now: View)
    requires |o.fates| == |o.matrix|
  {
    && (|now.committed| > |start.committed| <==> Starts(o, memory))
    && (|now.committed| > |start.committed| ==> FirstKey(start, now) == RunKey(o.matrix[FirstOpen(o, memory, 0)]))
  }

  /**
   One run of the program.  It reads the ledger before it takes the lease, so `read` may
   be older than what the file holds when the run begins.
   */
  method Launch(file: LedgerFile, options: Options, read: Log) returns (finished: bool, log: Log)
    requires |options.fates| == |options.matrix| && InOrder(file.committed, file.issued)
    modifies file
    ensures Sound(options, old(file.Seen()), Copy(options, read), file.Seen(), log, file.issued)
    ensures Leads(options, old(file.Seen()), Copy(options, read), file.Seen())
    ensures old(AllAccounted(file.Seen())) ==>
              (AllAccounted(file.Seen()) <==> KeepsHistory(options, Copy(options, read), old(file.entries)))
    ensures Unhindered(options, Copy(options, read), old(file.entries)) ==> finished
    ensures old(file.entries) == Copy(options, read) && finished ==>
              TrustedUpTo(options, Copy(options, read), |options.matrix|)
    ensures old(file.entries) == Copy(options, read) && finished && options.maxNewRuns == 0 ==>
              RecordedUpTo(file.entries, options.matrix, |options.matrix|)
    ensures old(file.entries) == Copy(options, read) && finished && DistinctKeys(options.matrix) ==>
              AttemptsChosen(options, old(file.Seen()), file.Seen(), |options.matrix|)
  {
    ghost var start := file.Seen();
    hide Sound, Leads, InOrder, Unhindered, KeepsHistory, AllAccounted, RecordedUpTo, AttemptsChosen, DistinctKeys;
    var runner := new Runner(file, options, read);
    finished := runner.RunMatrix();
    log := runner.log;
    if AllAccounted(start) {
      HistoryKeptExactlyIfFirstCellIsKnown(options, start, Copy(options, read), file.Seen(), log, file.issued);
    }
  }

  /** The run's own copy of the ledger: what it read, or nothing without --resume. */
  function Copy(o: Options, read: Log): Log {
    if o.resume then read else map[]
  }

  /** Nothing will be written, or the copy lists all earlier attempts of the first cell to be attempted. */
  ghost predicate KeepsHistory(o: Options, memory: Log, disk: Log)
    requires |o.fates| == |o.matrix|
  {
    Starts(o, memory) ==>
      Ids(PriorOf(memory, FirstCellKey(o, memory))) == Ids(PriorOf(disk, FirstCellKey(o, memory)))
  }

  /**
   The attempt history survives a run exactly if the run's own copy lists the earlier
   attempts of the first cell it will attempt.  Given that this attempt gets as far as its
   first write, all of that is known before the run.
   */
  lemma HistoryKeptExactlyIfFirstCellIsKnown(o: Options, start: View, memory: Log, now: View, log: Log, issued: nat)
    requires |o.fates| == |o.matrix| && Sound(o, start, memory, now, log, issued) && Leads(o, start, memory, now)
    requires AllAccounted(start)
    ensures AllAccounted(now) <==> KeepsHistory(o, memory, start.disk)
  {
    hide Ids, IdsOf, PriorOf, InOrder, LeavesSettledAlone, OnlyUnsettledSuperseded, RunKey;
    if Starts(o, memory) {
      var first := FirstCellKey(o, memory);
      assert FirstDecides(start, memory, now);
      assert Accounted(start, first);
      assert forall key :: key != first ==> Accounted(start, key) && Accounted(now, key);
    }
  }

  /** Without --resume it survives exactly if the first cell of the matrix was never attempted, or is not now. */
  lemma PlainStartKeepsHistory(o: Options, disk: Log)
    requires |o.fates| == |o.matrix| && !o.resume
    ensures KeepsHistory(o, map[], disk) <==>
              o.matrix == [] || o.fates[0].NotCommitted? || RunKey(o.matrix[0]) !in disk
  {
    hide RunKey;
    if Starts(o, map[]) {
      var key := RunKey(o.matrix[0]);
      assert |Ids(PriorOf(disk, key))| == |PriorOf(disk, key)|;
    }
  }

  /** With --resume and an up-to-date copy it always survives. */
  lemma ResumeKeepsHistory(o: Options, disk: Log)
    requires |o.fates| == |o.matrix|
    ensures KeepsHistory(o, disk, disk)
  {
  }

  // ---------------------------------------------------------------- a campaign of runs

  /** One comparison for the whole campaign. */
  ghost predicate OneComparison(runs: seq<Options>) {
    forall a, b, cell, entry :: 0 <= a < |runs| && 0 <= b < |runs| ==>
      runs[a].trusted(cell, entry) == runs[b].trusted(cell, entry)
  }

  ghost predicate IsCellOf(runs: seq<Options>, n: nat, cell: Cell)
    requires n <= |runs|
  {
    exists a :: 0 <= a < n && cell in runs[a].matrix
  }

  /** No two cells of the campaign share a key. */
  ghost predicate KeysTellCellsApart(runs: seq<Options>) {
    forall c, d :: IsCellOf(runs, |runs|, c) && IsCellOf(runs, |runs|, d) && RunKey(c) == RunKey(d) ==> c == d
  }

  /** Every entry was written by one of the first n runs. */
  ghost predicate WrittenByRuns(runs: seq<Options>, n: nat, log: Log)
    requires n <= |runs|
  {
    forall key :: key in log ==> WrittenByRun(runs, n, key, log[key])
  }

  ghost predicate WrittenByRun(runs: seq<Options>, n: nat, key: string, entry: Entry)
    requires n <= |runs|
  {
    exists a :: 0 <= a < n && OwnEntry(runs[a], key, entry)
  }

  /** Whatever id and history an attempt of cell i gets, it leaves a settled entry. */
  ghost predicate AttemptSettles(o: Options, i: nat)
    requires i < |o.matrix| == |o.fates|
  {
    && o.fates[i].Finishes?
    && forall entry :: Resulted(o, i, entry) ==> Settles(entry.current.outcome)
  }

  /** Every run walks the same cells with the same limit, and every attempt settles its cell. */
  ghost predicate Rationed(runs: seq<Options>) {
    && runs != [] && OneComparison(runs) && DistinctKeys(runs[0].matrix) && runs[0].maxNewRuns > 0
    && forall r :: 0 <= r < |runs| ==> RationedRun(runs[0], runs[r])
  }

  ghost predicate RationedRun(first: Options, o: Options) {
    && o.matrix == first.matrix && o.maxNewRuns == first.maxNewRuns && |o.fates| == |o.matrix|
    && forall i :: 0 <= i < |o.matrix| ==> AttemptSettles(o, i)
  }

  /** The number of cells before cell i that share its condition. */
  function Rank(matrix: seq<Cell>, i: nat): nat
    requires i < |matrix|
  {
    Before(matrix, matrix[i].condition, i)
  }

  function Before(matrix: seq<Cell>, condition: string, i: nat): nat
    requires i <= |matrix|
  {
    if i == 0 then 0
    else Before(matrix, condition, i - 1) + if matrix[i - 1].condition == condition then 1 else 0
  }

  /** Of each condition exactly the first `budget` cells are settled. */
  ghost predicate SettledUpTo(log: Log, matrix: seq<Cell>, budget: nat) {
    forall i: nat :: i < |matrix| ==> (Settled(log, RunKey(matrix[i])) <==> Rank(matrix, i) < budget)
  }

  /**
   Any number of runs on a fresh ledger: the first may be plain, the others resume.  No
   attempt is ever lost, and what the campaign wrote itself never stops a run.  With a
   limit on new runs, n runs whose attempts all succeed settle exactly the first n times
   that many cells of each condition.
   */
  method Campaign(file: LedgerFile, runs: seq<Options>) returns (finished: seq<bool>)
    requires file.entries == map[] && file.committed == []
    requires forall r :: 0 <= r < |runs| ==> |runs[r].fates| == |runs[r].matrix|
    requires forall r :: 0 < r < |runs| ==> runs[r].resume
    modifies file
    ensures AllAccounted(file.Seen()) && InOrder(file.committed, file.issued)
    ensures runs == [] || runs[0].resume || DistinctKeys(runs[0].matrix) ==> OnlyUnsettledSuperseded(file.entries)
    ensures |finished| == |runs|
    ensures OneComparison(runs) && KeysTellCellsApart(runs) ==>
              forall r :: 0 <= r < |runs| && AllFinish(runs[r].fates) ==> finished[r]
    ensures runs != [] && finished[|runs| - 1] && runs[|runs| - 1].maxNewRuns == 0 ==>
              RecordedUpTo(file.entries, runs[|runs| - 1].matrix, |runs[|runs| - 1].matrix|)
    ensures Rationed(runs) ==> SettledUpTo(file.entries, runs[0].matrix, |runs| * runs[0].maxNewRuns)
  {
    hide RecordedUpTo, Accounted, Sound, Leads, InOrder, DistinctKeys, OnlyUnsettledSuperseded, Unhindered;
    hide OneComparison, KeysTellCellsApart, WrittenByRuns, KeepsHistory, TrustedUpTo, AllFinish;
    hide Rationed, SettledUpTo, AttemptsChosen;
    finished := [];
    FreshLedger(file.Seen(), file.issued, runs);
    ghost var settled := 0;
    if Rationed(runs) {
      RationedIsSteady(runs);
      NothingSettled(runs[0].matrix);
    }
    for r := 0 to |runs|
      invariant r == 0 ==> file.entries == map[]
      invariant |finished| == r
      invariant AllAccounted(file.Seen()) && InOrder(file.committed, file.issued)
      invariant runs == [] || runs[0].resume || DistinctKeys(runs[0].matrix) ==> OnlyUnsettledSuperseded(file.entries)
      invariant WrittenByRuns(runs, r, file.entries)
      invariant OneComparison(runs) && KeysTellCellsApart(runs) ==>
                  forall k :: 0 <= k < r && AllFinish(runs[k].fates) ==> finished[k]
      invariant r > 0 && finished[r - 1] && runs[r - 1].maxNewRuns == 0 ==>
                  RecordedUpTo(file.entries, runs[r - 1].matrix, |runs[r - 1].matrix|)
      invariant Rationed(runs) ==>
                  settled == r * runs[0].maxNewRuns && SettledUpTo(file.entries, runs[0].matrix, settled)
    {
      ghost var start := file.Seen();
      var done, log := Launch(file, runs[r], file.entries);
      ResumeKeepsHistory(runs[r], start.disk);
      RunKeepsCampaign(runs, r, start, file.Seen(), log, file.issued);
      if OneComparison(runs) && KeysTellCellsApart(runs) && AllFinish(runs[r].fates) {
        OwnEntriesAreTrusted(runs, r, start.disk);
      }
      if Rationed(runs) {
        RationedRuns(runs, r);
        RunSettlesItsRation(runs[0], runs[r], start, file.Seen(), settled);
        settled := settled + runs[0].maxNewRuns;
      }
      finished := finished + [done];
    }
  }

  lemma FreshLedger(v: View, issued: nat, runs: seq<Options>)
    requires v.disk == map[] && v.committed == []
    ensures AllAccounted(v) && OnlyUnsettledSuperseded(v.disk) && InOrder(v.committed, issued)
    ensures WrittenByRuns(runs, 0, v.disk)
  {
  }

  lemma RunKeepsCampaign(runs: seq<Options>, r: nat, start: View, now: View, log: Log, issued: nat)
    requires r < |runs| && Sound(runs[r], start, start.disk, now, log, issued)
    requires runs[r].resume || (r == 0 && start.disk == map[])
    requires WrittenByRuns(runs, r, start.disk)
    ensures InOrder(now.committed, issued) && WrittenByRuns(runs, r + 1, now.disk)
    ensures OnlyUnsettledSuperseded(start.disk) && (runs[r].resume || DistinctKeys(runs[r].matrix)) ==>
              OnlyUnsettledSuperseded(now.disk)
  {
    hide Session, InOrder, OnlyUnsettledSuperseded, DistinctKeys, LeavesSettledAlone, OwnEntry;
    forall key | key in now.disk
      ensures WrittenByRun(runs, r + 1, key, now.disk[key])
    {
      if !OwnEntry(runs[r], key, now.disk[key]) {
        assert WrittenByRun(runs, r, key, start.disk[key]);
        var a :| 0 <= a < r && OwnEntry(runs[a], key, start.disk[key]);
        assert OwnEntry(runs[a], key, now.disk[key]);
      }
    }
  }

  /** A later run finds none of the campaign's own settled entries to mismatch. */
  lemma OwnEntriesAreTrusted(runs: seq<Options>, r: nat, log: Log)
    requires r < |runs| && OneComparison(runs) && KeysTellCellsApart(runs) && WrittenByRuns(runs, r, log)
    requires AllFinish(runs[r].fates)
    ensures Unhindered(runs[r], log, log)
  {
    hide RunKey, AllFinish;
    var o := runs[r];
    forall c | c in o.matrix
      ensures IsCellOf(runs, |runs|, c)
    {
      assert c in runs[r].matrix;
    }
    forall j | 0 <= j < |o.matrix| && PassedOver(o, log, j)
      ensures o.trusted(o.matrix[j], log[RunKey(o.matrix[j])])
    {
      var key := RunKey(o.matrix[j]);
      assert WrittenByRun(runs, r, key, log[key]);
      var a :| 0 <= a < r && OwnEntry(runs[a], key, log[key]);
      assert IsCellOf(runs, |runs|, log[key].cell);
      assert log[key].cell == o.matrix[j];
      assert runs[a].trusted(log[key].cell, log[key]);
    }
  }

  /**
   Under --resume a cell that the ledger shows settled is attempted again exactly if it is
   the first cell the run attempts, which its outdated copy must show unsettled; otherwise
   it keeps its entry.
   */
  lemma SettledCellIsKept(o: Options, start: View, memory: Log, now: View, log: Log, issued: nat, key: string)
    requires o.resume && |o.fates| == |o.matrix|
    requires Sound(o, start, memory, now, log, issued) && Leads(o, start, memory, now) && Settled(start.disk, key)
    ensures Unattempted(start, now, key) <==> !(Starts(o, memory) && FirstCellKey(o, memory) == key)
    ensures Unattempted(start, now, key) ==> Settled(now.disk, key) && now.disk[key] == start.disk[key]
    ensures Settled(memory, key) ==> Unattempted(start, now, key)
  {
    hide Accounted, InOrder, OnlyUnsettledSuperseded, RunKey;
    if Starts(o, memory) {
      FirstOpenIsFirst(o, memory, 0, FirstOpen(o, memory, 0));
    }
    if Unattempted(start, now, key) {
      assert SameEntry(start.disk, now.disk, key);
    }
  }

  // ---------------------------------------------------------------- what the pass keeps

  ghost predicate DistinctKeys(matrix: seq<Cell>) {
    forall i, j :: 0 <= i < j < |matrix| ==> RunKey(matrix[i]) != RunKey(matrix[j])
  }

  /** The run's copy is up to date, and it cannot come to a settled cell unawares. */
  ghost predicate Forewarned(o: Options, start: View, memory: Log) {
    && memory == start.disk
    && (o.resume || (memory == map[] && DistinctKeys(o.matrix)))
  }

  /** An entry this run wrote: for a cell of its matrix, and settled only if it passed the comparison. */
  ghost predicate OwnEntry(o: Options, key: string, entry: Entry) {
    && entry.cell in o.matrix && RunKey(entry.cell) == key
    && (Settles(entry.current.outcome) ==> o.trusted(entry.cell, entry))
  }

  ghost predicate Wrote(o: Options, before: Log, after: Log) {
    forall key :: key in after ==> (key in before && after[key] == before[key]) || OwnEntry(o, key, after[key])
  }

  ghost predicate Sound(o: Options, start: View, memory: Log, now: View, log: Log, issued: nat) {
    && InOrder(now.committed, issued)
    && Session(start, memory, now, log)
    && Wrote(o, start.disk, now.disk)
    && (o.resume ==> LeavesSettledAlone(start, now))
    && (Forewarned(o, start, memory) && OnlyUnsettledSuperseded(start.disk) ==> OnlyUnsettledSuperseded(now.disk))
  }

  predicate Recorded(log: Log, key: string) {
    key in log && log[key].current.outcome != Pending
  }

  ghost predicate RecordedUpTo(log: Log, matrix: seq<Cell>, n: nat)
    requires n <= |matrix|
  {
    forall j :: 0 <= j < n ==> Recorded(log, RunKey(matrix[j]))
  }

  ghost predicate OnlyKeysOf(log: Log, matrix: seq<Cell>, n: nat)
    requires n <= |matrix|
  {
    forall key :: key in log ==> HasKey(matrix, n, key)
  }

  ghost predicate HasKey(matrix: seq<Cell>, n: nat, key: string)
    requires n <= |matrix|
  {
    exists j :: 0 <= j < n && RunKey(matrix[j]) == key
  }

  ghost predicate Pass(
    o: Options, start: View, memory: Log, now: View, log: Log, issued: nat, newRuns: map<string, nat>, i: nat)
    requires i <= |o.matrix| == |o.fates|
  {
    && Sound(o, start, memory, now, log, issued)
    && Lead(o, start, memory, now, newRuns, i)
    && (memory == start.disk ==> log == now.disk && TrustedUpTo(o, memory, i))
    && (start.disk == map[] && memory == map[] ==> OnlyKeysOf(now.disk, o.matrix, i))
    && (o.maxNewRuns == 0 && memory == start.disk ==> RecordedUpTo(now.disk, o.matrix, i))
  }

  lemma PassBegins(o: Options, start: View, memory: Log, issued: nat)
    requires InOrder(start.committed, issued) && |o.matrix| == |o.fates|
    ensures Pass(o, start, memory, start, memory, issued, map[], 0)
  {
    hide InOrder, OnlyUnsettledSuperseded;
    SessionBegins(start, memory);
  }

  lemma PassSkips(
    o: Options, start: View, memory: Log, now: View, log: Log, issued: nat, newRuns: map<string, nat>, i: nat)
    requires i < |o.matrix| == |o.fates| && Pass(o, start, memory, now, log, issued, newRuns, i)
    requires PassedOver(o, log, i) && o.trusted(o.matrix[i], log[RunKey(o.matrix[i])])
    ensures Pass(o, start, memory, now, log, issued, newRuns, i + 1)
  {
    hide RunKey, FirstDecides, InOrder, OnlyUnsettledSuperseded;
    KeysWiden(now.disk, o.matrix, i);
    FirstOpenIsFirst(o, memory, 0, i);
    if memory == start.disk && PassedOver(o, memory, i) {
      KnownSettledIsKept(o, start, memory, now, log, issued, newRuns, i, RunKey(o.matrix[i]));
    }
  }

  lemma PassDefers(
    o: Options, start: View, memory: Log, now: View, log: Log, issued: nat, newRuns: map<string, nat>, i: nat)
    requires i < |o.matrix| == |o.fates| && Pass(o, start, memory, now, log, issued, newRuns, i)
    requires o.maxNewRuns > 0 && newRuns != map[] && !PassedOver(o, log, i)
    ensures Pass(o, start, memory, now, log, issued, newRuns, i + 1)
  {
    hide RunKey, Sound, TrustedUpTo;
    KeysWiden(now.disk, o.matrix, i);
    StillTrusted(o, start, memory, now, log, issued, newRuns, i);
  }

  /** With an up-to-date copy, a cell that is not passed over was not settled at the start either. */
  lemma StillTrusted(
    o: Options, start: View, memory: Log, now: View, log: Log, issued: nat, newRuns: map<string, nat>, i: nat)
    requires i < |o.matrix| == |o.fates| && Lead(o, start, memory, now, newRuns, i) && Sound(o, start, memory, now, log, issued) && !PassedOver(o, log, i)
    requires memory == start.disk ==> log == now.disk && TrustedUpTo(o, memory, i)
    ensures memory == start.disk ==> TrustedUpTo(o, memory, i + 1)
  {
    hide RunKey, Sound;
    if memory == start.disk && PassedOver(o, memory, i) {
      KnownSettledIsKept(o, start, memory, now, log, issued, newRuns, i, RunKey(o.matrix[i]));
    }
  }

  /** What the copy shows settled as well is not touched at any point of the pass. */
  lemma KnownSettledIsKept(
    o: Options, start: View, memory: Log, now: View, log: Log, issued: nat, newRuns: map<string, nat>, i: nat, key: string)
    requires o.resume && i <= |o.matrix| == |o.fates| && Lead(o, start, memory, now, newRuns, i)
    requires Sound(o, start, memory, now, log, issued) && Settled(start.disk, key) && Settled(memory, key)
    ensures Settled(now.disk, key) && now.disk[key] == start.disk[key]
  {
    hide Accounted, InOrder, OnlyUnsettledSuperseded, RunKey;
    if |now.committed| > |start.committed| {
      FirstOpenIsFirst(o, memory, 0, FirstOpen(o, memory, 0));
    }
    assert SameEntry(start.disk, now.disk, key);
  }

  lemma KeysWiden(log: Log, matrix: seq<Cell>, i: nat)
    requires i < |matrix|
    ensures OnlyKeysOf(log, matrix, i) ==> OnlyKeysOf(log, matrix, i + 1)
  {
    hide RunKey;
  }

  /** A mismatch is met only if there was one, or two cells share a key. */
  lemma PassMismatch(
    o: Options, start: View, memory: Log, now: View, log: Log, issued: nat, newRuns: map<string, nat>, i: nat)
    requires i < |o.matrix| == |o.fates| && Pass(o, start, memory, now, log, issued, newRuns, i)
    requires PassedOver(o, log, i) && !o.trusted(o.matrix[i], log[RunKey(o.matrix[i])])
    ensures Sound(o, start, memory, now, log, issued) && Leads(o, start, memory, now)
    ensures !Unhindered(o, memory, start.disk)
  {
    hide RunKey, FirstDecides, InOrder, OnlyUnsettledSuperseded, AllFinish, OnlyKeysOf, RecordedUpTo;
    var key := RunKey(o.matrix[i]);
    FirstOpenIsFirst(o, memory, 0, i);
    if |now.committed| > |start.committed| && !(key in start.disk && log[key] == start.disk[key]) {
      assert OwnEntry(o, key, log[key]);
    }
  }

  lemma PassEnds(
    o: Options, start: View, memory: Log, now: View, log: Log, issued: nat, newRuns: map<string, nat>)
    requires |o.matrix| == |o.fates| && Pass(o, start, memory, now, log, issued, newRuns, |o.matrix|)
    ensures Sound(o, start, memory, now, log, issued) && Leads(o, start, memory, now)
    ensures memory == start.disk ==> TrustedUpTo(o, memory, |o.matrix|)
    ensures memory == start.disk && o.maxNewRuns == 0 ==> RecordedUpTo(now.disk, o.matrix, |o.matrix|)
  {
    hide Sound, RecordedUpTo, RunKey;
  }

  lemma PassAttempts(
    o: Options, start: View, memory: Log, now: View, log: Log, issued: nat, newRuns: map<string, nat>, i: nat,
    more: map<string, nat>)
    requires i < |o.matrix| == |o.fates| && Pass(o, start, memory, now, log, issued, newRuns, i)
    requires !PassedOver(o, log, i)
    ensures o.fates[i].NotCommitted? ==>
              Sound(o, start, memory, now, log, issued + 1) && Leads(o, start, memory, now)
    ensures !o.fates[i].NotCommitted? ==>
              var key := RunKey(o.matrix[i]);
              var after := AfterCommit(now, key, EntryOf(o.matrix[i], issued, PriorOf(log, key), o.fates[i], o.trusted));
              && Sound(o, start, memory, after, after.disk, issued + 1) && Leads(o, start, memory, after)
              && (o.fates[i].Finishes? ==> Pass(o, start, memory, after, after.disk, issued + 1, more, i + 1))
    ensures !o.fates[i].Finishes? ==> !Unhindered(o, memory, start.disk)
  {
    hide RunKey, Session, LeavesSettledAlone, OnlyUnsettledSuperseded, OnlyKeysOf, Wrote, Lead;
    LeadAttempts(o, start, memory, now, log, newRuns, i, more);
    StillTrusted(o, start, memory, now, log, issued, newRuns, i);
    if !o.fates[i].NotCommitted? {
      var key := RunKey(o.matrix[i]);
      var entry := EntryOf(o.matrix[i], issued, PriorOf(log, key), o.fates[i], o.trusted);
      if start.disk == map[] && memory == map[] {
        FreshKey(now.disk, o.matrix, i);
        KeysGrow(now.disk, o.matrix, i, entry);
      }
      CommitIsSound(o, start, memory, now, log, issued, key, entry);
    }
  }

  /** Attempting cell i settles which cell is the first. */
  lemma LeadAttempts(
    o: Options, start: View, memory: Log, now: View, log: Log, newRuns: map<string, nat>, i: nat, more: map<string, nat>)
    requires i < |o.matrix| == |o.fates| && Lead(o, start, memory, now, newRuns, i) && Session(start, memory, now, log)
    requires !PassedOver(o, log, i)
    ensures o.fates[i].NotCommitted? ==> Leads(o, start, memory, now)
    ensures forall entry ::
              !o.fates[i].NotCommitted? ==>
                var after := AfterCommit(now, RunKey(o.matrix[i]), entry);
                Lead(o, start, memory, after, more, i + 1) && Leads(o, start, memory, after)
  {
    hide RunKey, FirstDecides;
    FirstOpenIsFirst(o, memory, 0, i);
  }

  lemma KeysGrow(log: Log, matrix: seq<Cell>, i: nat, entry: Entry)
    requires i < |matrix| && OnlyKeysOf(log, matrix, i)
    ensures OnlyKeysOf(log[RunKey(matrix[i]) := entry], matrix, i + 1)
  {
    hide RunKey;
    var key := RunKey(matrix[i]);
    var more := log[key := entry];
    forall k | k in more
      ensures HasKey(matrix, i + 1, k)
    {
      if k in log {
        assert HasKey(matrix, i, k);
      }
    }
  }

  /** Under distinct keys, the next cell of the matrix is not in the ledger yet. */
  lemma FreshKey(log: Log, matrix: seq<Cell>, i: nat)
    requires i < |matrix| && OnlyKeysOf(log, matrix, i)
    ensures DistinctKeys(matrix) ==> RunKey(matrix[i]) !in log
  {
    hide RunKey;
  }

  lemma CommitIsSound(o: Options, start: View, memory: Log, now: View, log: Log, issued: nat, key: string, entry: Entry)
    requires Sound(o, start, memory, now, log, issued)
    requires memory == start.disk ==> log == now.disk
    requires entry.attempts == PriorOf(log, key) && entry.current.id == issued && OwnEntry(o, key, entry)
    requires o.resume ==> !Settled(log, key)
    requires Forewarned(o, start, memory) && !o.resume ==> key !in log
    ensures var after := AfterCommit(now, key, entry);
            Sound(o, start, memory, after, after.disk, issued + 1)
  {
    hide Session, LeavesSettledAlone, OnlyUnsettledSuperseded, DistinctKeys, OwnEntry;
    SessionCommits(start, memory, now, log, key, entry);
    if o.resume {
      SettledStaysAlone(start, memory, now, log, key, entry);
    }
    if Forewarned(o, start, memory) && OnlyUnsettledSuperseded(start.disk) {
      SupersededStayUnsettled(now.disk, key, entry);
    }
  }

  // ---------------------------------------------------------------- how the pass spends its new runs

  lemma NothingSpent(o: Options, start: View, memory: Log)
    requires |o.matrix| == |o.fates|
    ensures Spends(o, start, memory, start, map[], 0)
  {
    hide RunKey;
  }

  lemma SpentOnTheChosen(o: Options, start: View, memory: Log, now: View, newRuns: map<string, nat>)
    requires |o.matrix| == |o.fates| && Spends(o, start, memory, now, newRuns, |o.matrix|)
    ensures memory == start.disk && DistinctKeys(o.matrix) ==> AttemptsChosen(o, start, now, |o.matrix|)
  {
    hide DistinctKeys, AttemptsChosen, Counts;
  }

  lemma SomeRun(newRuns: map<string, nat>, condition: string)
    requires NewRuns(newRuns, condition) > 0
    ensures newRuns != map[]
  {
  }

  /** What the copy shows of a cell not yet come to is what the ledger showed at the start. */
  lemma AsAtTheStart(
    o: Options, start: View, memory: Log, now: View, log: Log, issued: nat, newRuns: map<string, nat>, i: nat)
    requires i < |o.matrix| == |o.fates| && Pass(o, start, memory, now, log, issued, newRuns, i)
    requires memory == start.disk && AttemptsChosen(o, start, now, i)
    ensures PassedOver(o, log, i) <==> PassedOver(o, start.disk, i)
  {
    hide RunKey, Sound, Chosen;
    assert AttemptedIfChosen(o, start, now, i, i);
  }

  /** A cell that is passed over, or for which no new run is left. */
  lemma SpendsNothing(
    o: Options, start: View, memory: Log, now: View, log: Log, issued: nat, newRuns: map<string, nat>, i: nat)
    requires i < |o.matrix| == |o.fates| && Pass(o, start, memory, now, log, issued, newRuns, i)
    requires Spends(o, start, memory, now, newRuns, i)
    requires PassedOver(o, log, i) || (o.maxNewRuns > 0 && NewRuns(newRuns, o.matrix[i].condition) >= o.maxNewRuns)
    ensures Spends(o, start, memory, now, newRuns, i + 1)
  {
    hide RunKey, Pass, NewRuns, PassedOver, Resulted, SameEntry;
    if memory == start.disk && DistinctKeys(o.matrix) {
      AsAtTheStart(o, start, memory, now, log, issued, newRuns, i);
      assert Count(o, memory, newRuns, i, o.matrix[i].condition);
      var next := i + 1;
      forall d
        ensures Count(o, memory, newRuns, next, d)
      {
        assert Count(o, memory, newRuns, i, d);
      }
      forall j | 0 <= j < |o.matrix|
        ensures AttemptedIfChosen(o, start, now, next, j)
      {
        assert AttemptedIfChosen(o, start, now, i, j);
      }
    }
  }

  lemma SpendsOne(
    o: Options, start: View, memory: Log, now: View, log: Log, issued: nat, newRuns: map<string, nat>, i: nat)
    requires i < |o.matrix| == |o.fates| && Pass(o, start, memory, now, log, issued, newRuns, i)
    requires Spends(o, start, memory, now, newRuns, i) && o.fates[i].Finishes? && !PassedOver(o, log, i)
    requires o.maxNewRuns > 0 ==> NewRuns(newRuns, o.matrix[i].condition) < o.maxNewRuns
    ensures var cell := o.matrix[i];
            var entry := EntryOf(cell, issued, PriorOf(log, RunKey(cell)), o.fates[i], o.trusted);
            Spends(o, start, memory, AfterCommit(now, RunKey(cell), entry),
                   newRuns[cell.condition := NewRuns(newRuns, cell.condition) + 1], i + 1)
  {
    hide RunKey, Pass, PassedOver, PriorOf, AfterCommit, EntryOf, AttemptsChosen;
    var cell := o.matrix[i];
    var key := RunKey(cell);
    var entry := EntryOf(cell, issued, PriorOf(log, key), o.fates[i], o.trusted);
    if memory == start.disk && DistinctKeys(o.matrix) {
      AsAtTheStart(o, start, memory, now, log, issued, newRuns, i);
      assert Count(o, memory, newRuns, i, cell.condition);
      assert Resulted(o, i, entry);
      assert Prolongs(start, now) by { PassProlongs(o, start, memory, now, log, issued, newRuns, i); }
      AttemptsOneMore(o, start, now, entry, i);
      CountsOneMore(o, memory, newRuns, i);
    }
  }

  lemma CountsOneMore(o: Options, memory: Log, newRuns: map<string, nat>, i: nat)
    requires i < |o.matrix| && Counts(o, memory, newRuns, i) && !PassedOver(o, memory, i)
    requires o.maxNewRuns > 0 ==> NewRuns(newRuns, o.matrix[i].condition) < o.maxNewRuns
    ensures var c := o.matrix[i].condition;
            Counts(o, memory, newRuns[c := NewRuns(newRuns, c) + 1], i + 1)
  {
    hide PassedOver;
    var c := o.matrix[i].condition;
    var more := newRuns[c := NewRuns(newRuns, c) + 1];
    var next := i + 1;
    forall d
      ensures Count(o, memory, more, next, d)
    {
      assert Count(o, memory, newRuns, i, d);
      assert OpenBefore(o, memory, d, next) == OpenBefore(o, memory, d, i) + if d == c then 1 else 0;
    }
  }

  ghost predicate Prolongs(start: View, now: View) { start.committed <= now.committed }

  lemma PassProlongs(
    o: Options, start: View, memory: Log, now: View, log: Log, issued: nat, newRuns: map<string, nat>, i: nat)
    requires i <= |o.matrix| == |o.fates| && Pass(o, start, memory, now, log, issued, newRuns, i)
    ensures Prolongs(start, now)
  {
    hide FirstDecides, InOrder, OnlyUnsettledSuperseded, Lead, Wrote, LeavesSettledAlone;
  }

  lemma AttemptsOneMore(o: Options, start: View, now: View, entry: Entry, i: nat)
    requires i < |o.matrix| == |o.fates| && Prolongs(start, now) && DistinctKeys(o.matrix)
    requires AttemptsChosen(o, start, now, i) && Chosen(o, start.disk, i) && Resulted(o, i, entry)
    ensures AttemptsChosen(o, start, AfterCommit(now, RunKey(o.matrix[i]), entry), i + 1)
  {
    hide RunKey, Resulted, Chosen;
    var key := RunKey(o.matrix[i]);
    var after, next := AfterCommit(now, key, entry), i + 1;
    forall j | 0 <= j < |o.matrix|
      ensures AttemptedIfChosen(o, start, after, next, j)
    {
      assert AttemptedIfChosen(o, start, now, i, j);
      CommitAttempts(start, now, key, entry, RunKey(o.matrix[j]));
    }
  }

  /** A commit attempts its own key and no other. */
  lemma CommitAttempts(start: View, now: View, key: string, entry: Entry, other: string)
    requires Prolongs(start, now)
    ensures var after := AfterCommit(now, key, entry);
            Unattempted(start, after, other) <==> Unattempted(start, now, other) && other != key
  {
    var after := AfterCommit(now, key, entry);
    assert after.committed[|now.committed|].key == key;
    forall k | |start.committed| <= k < |now.committed|
      ensures after.committed[k] == now.committed[k]
    {
    }
    if Unattempted(start, after, other) {
      forall k | |start.committed| <= k < |now.committed|
        ensures now.committed[k].key != other
      {
        assert after.committed[k].key != other;
      }
    }
  }

  // ---------------------------------------------------------------- what successful runs settle

  lemma NothingSettled(matrix: seq<Cell>)
    ensures SettledUpTo(map[], matrix, 0)
  {
    hide RunKey, Rank;
  }

  /** Under one matrix without repeated keys no two cells of the campaign share one. */
  lemma RationedIsSteady(runs: seq<Options>)
    requires Rationed(runs)
    ensures runs != [] && OneComparison(runs) && KeysTellCellsApart(runs)
  {
    hide RunKey, AttemptSettles, OneComparison;
    var matrix := runs[0].matrix;
    forall c, d | IsCellOf(runs, |runs|, c) && IsCellOf(runs, |runs|, d) && RunKey(c) == RunKey(d)
      ensures c == d
    {
      var a :| 0 <= a < |runs| && c in runs[a].matrix;
      var b :| 0 <= b < |runs| && d in runs[b].matrix;
      assert RationedRun(runs[0], runs[a]) && RationedRun(runs[0], runs[b]);
      var i: nat :| i < |matrix| && matrix[i] == c;
      var j: nat :| j < |matrix| && matrix[j] == d;
      assert i == j;
    }
  }

  lemma RationedRuns(runs: seq<Options>, r: nat)
    requires Rationed(runs) && r < |runs|
    ensures RationedRun(runs[0], runs[r]) && AllFinish(runs[r].fates) && DistinctKeys(runs[r].matrix)
    ensures runs[0].maxNewRuns > 0
  {
    hide OneComparison, RunKey, Resulted;
    var o := runs[r];
    assert RationedRun(runs[0], o);
    forall i | 0 <= i < |o.fates|
      ensures o.fates[i].Finishes?
    {
      assert AttemptSettles(o, i);
    }
  }

  /** The open cells before cell i are those after the first `settled` of the condition. */
  lemma {:induction false} OpenAfterSettled(o: Options, log: Log, settled: nat, condition: string, i: nat)
    requires i <= |o.matrix| && SettledUpTo(log, o.matrix, settled) && (o.resume || settled == 0)
    ensures var n := Before(o.matrix, condition, i);
            OpenBefore(o, log, condition, i) == if n <= settled then 0 else n - settled
  {
    hide RunKey, Settled;
    if i > 0 {
      OpenAfterSettled(o, log, settled, condition, i - 1);
      assert Settled(log, RunKey(o.matrix[i - 1])) <==> Rank(o.matrix, i - 1) < settled;
    }
  }

  lemma RunSettlesItsRation(first: Options, o: Options, start: View, now: View, settled: nat)
    requires first.maxNewRuns > 0 && RationedRun(first, o) && (o.resume || settled == 0)
    requires AttemptsChosen(o, start, now, |o.matrix|) && SettledUpTo(start.disk, o.matrix, settled)
    ensures SettledUpTo(now.disk, o.matrix, settled + o.maxNewRuns)
  {
    hide RunKey, Resulted, Before, OpenBefore, Settles;
    forall i: nat | i < |o.matrix|
      ensures Settled(now.disk, RunKey(o.matrix[i])) <==> Rank(o.matrix, i) < settled + o.maxNewRuns
    {
      OpenAfterSettled(o, start.disk, settled, o.matrix[i].condition, i);
      assert AttemptedIfChosen(o, start, now, |o.matrix|, i);
      assert AttemptSettles(o, i);
      assert Settled(start.disk, RunKey(o.matrix[i])) <==> Rank(o.matrix, i) < settled;
    }
  }

  /**
   A resumed run without a limit leaves exactly those cells of its matrix alone whose
   entry has a physical outcome; missing, pending and invalid ones it attempts.
   */
  lemma OnlyPhysicalOutcomesAreKept(o: Options, start: View, now: View, i: nat)
    requires i < |o.matrix| == |o.fates| && AttemptsChosen(o, start, now, |o.matrix|)
    requires o.resume && o.maxNewRuns == 0
    ensures var key := RunKey(o.matrix[i]);
            Unattempted(start, now, key) <==>
              && key in start.disk
              && start.disk[key].current.outcome in {GoalReached, TimedOut, Stuck, LoiterTimeout}
  {
    hide RunKey, Resulted;
    assert AttemptedIfChosen(o, start, now, |o.matrix|, i);
  }
}
