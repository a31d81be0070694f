/** Runs with any restarts, crashes and rotations (src/storage_engine.rs, src/wal.rs): what survives of
    the history, and that reads are always the last surviving puts. */
module AnyRuns {
  import opened Entries
  import opened Records
  import opened WalLog
  import opened Memtables
  import opened Tables
  import opened EngineModel
  import opened Durability
  import opened DurableRuns
  import opened Losses

  /** What a restart keeps, in the order in which it is replayed: the puts in the files, then those in
      the log files. */
  function Survivors(s: EngineState, history: seq<Entry>, g: Marks): seq<Entry> {
    if OnFiles(s, g) <= |history| && 0 <= LogStart(s, history) && |s.log.pending| <= |Retained(s.log)|
    then history[..OnFiles(s, g)] + OnDisk(s, history)
    else history
  }

  /** A step, with the puts that survive it. */
  function LiveNext(t: Tracked, l: Label): Tracked {
    match l
    case DoReopen(clean, _, _, _) =>
      var closed := if clean then t.s.(log := Flush(t.s.log)) else t.s;
      var files := OnFiles(closed, t.marks);
      Tracked(Next(t.s, l), Survivors(closed, t.history, t.marks), Marks(files, files, 0, 0))
    case _ => Tracked(Next(t.s, l), NextHistory(t.history, l), NextMarks(t, l))
  }

  function Live(start: EngineState, labels: seq<Label>): Tracked {
    if labels == [] then Tracked(start, [], Marks(0, 0, 0, 0))
    else LiveNext(Live(start, labels[..|labels| - 1]), labels[|labels| - 1])
  }

  /** Every step but the fallback and compaction, whatever the log has lost. */
  ghost predicate LiveRun(start: EngineState, labels: seq<Label>) {
    labels == [] ||
    (var front, l := labels[..|labels| - 1], labels[|labels| - 1];
     && LiveRun(start, front) && Enabled(Live(start, front).s, l)
     && !l.DoFallback? && !l.DoCompact? && !l.DoCompactingPut?)
  }

  /** A restart leaves the survivors as the history: the files are its start, the log is its end. */
  lemma ReopenKeepsLayered(s: EngineState, history: seq<Entry>, g: Marks, memMax: nat, capacity: nat, background: bool)
    requires Layered(s, history, g)
    ensures var files := OnFiles(s, g);
            Layered(Reopen(s, false, memMax, capacity, background), Survivors(s, history, g), Marks(files, files, 0, 0))
  {
    hide Replay, TablesMap, Structure, InFileOrder, DiskRecords, RunPuts, TablesOnDisk, Retained;
    ReopenStructure(s, memMax, capacity, background);
    ReopenTables(s, history, g);
    ReopenMemtable(s, history, memMax, capacity);
    LogBounds(s, history);
    FilesWithin(s, history, g);
    var kept, disk := history[..OnFiles(s, g)], OnDisk(s, history);
    assert (kept + disk)[..|kept|] == kept && (kept + disk)[|kept|..] == disk;
    RecsConcat(kept, disk);
    RecsAccepted(history, kept, disk);
  }

  lemma RecsConcat(a: seq<Entry>, b: seq<Entry>)
    ensures Recs(a + b) == Recs(a) + Recs(b)
  {}

  lemma RecsAccepted(history: seq<Entry>, a: seq<Entry>, b: seq<Entry>)
    requires AllAccepted(Recs(history)) && (forall e :: e in a + b ==> e in history)
    ensures AllAccepted(Recs(a + b))
  {
    forall i | 0 <= i < |a + b| ensures Accepted((a + b)[i]) {
      assert (a + b)[i] in a + b;
      var j :| 0 <= j < |history| && history[j] == (a + b)[i];
      assert Recs(history)[j].entry == history[j];
    }
  }

  lemma LiveKeepsLayered(t: Tracked, l: Label)
    requires Layered(t.s, t.history, t.marks) && Enabled(t.s, l)
    requires !l.DoFallback? && !l.DoCompact? && !l.DoCompactingPut?
    ensures var n := LiveNext(t, l);
            Layered(n.s, n.history, n.marks)
  {
    hide Layered, PutEntry, Complete, BackgroundWrite, Freeze, Reopen, PutMarks, Flush, Survivors, DrainMarks;
    var s, history, g := t.s, t.history, t.marks;
    match l {
      case DoPut(e) => PutKeepsLayered(s, history, g, e);
      case DoPoll => PollKeepsLayered(s, history, g);
      case DoWrite => WriteKeepsLayered(s, history, g);
      case DoFreeze => FreezeKeepsLayered(s, history, g);
      case DoLogFlush => LogFlushKeepsLayered(s, history, g);
      case DoLogLimit(n) => LogLimitKeepsLayered(s, history, g, n);
      case DoReopen(clean, memMax, capacity, background) =>
        if clean {
          LogFlushKeepsLayered(s, history, g);
          CleanReopenIsFlush(s, memMax, capacity, background);
          ReopenKeepsLayered(s.(log := Flush(s.log)), history, g, memMax, capacity, background);
        } else {
          ReopenKeepsLayered(s, history, g, memMax, capacity, background);
        }
    }
  }

  /** Over every run without fallback and compaction, with rotations, restarts and crashes at any point:
      reads are the last surviving puts, and each further restart or crash is exactly described. */
  lemma {:induction false} AnyRun(memMax: nat, capacity: nat, background: bool, labels: seq<Label>)
    requires LiveRun(NewEngine(memMax, capacity, background), labels)
    ensures var t := Live(NewEngine(memMax, capacity, background), labels);
            && Layered(t.s, t.history, t.marks)
            && forall key :: Get(t.s, key) == Read(Replay(t.history), key)
  {
    hide Layered, LiveNext, Get, Replay;
    var start := NewEngine(memMax, capacity, background);
    if labels == [] {
      NewEngineDurable(memMax, capacity, background);
      DurableIsLayered(start, [], Marks(0, 0, 0, 0));
    } else {
      var front := labels[..|labels| - 1];
      AnyRun(memMax, capacity, background, front);
      LiveKeepsLayered(Live(start, front), labels[|labels| - 1]);
    }
    LayeredReads(Live(start, labels));
  }

  lemma LayeredReads(t: Tracked)
    requires Layered(t.s, t.history, t.marks)
    ensures forall key :: Get(t.s, key) == Read(Replay(t.history), key)
  {
    LayersAreMap(t.s, t.history, t.marks);
    forall key ensures Get(t.s, key) == Read(Replay(t.history), key) {
      GetIsView(t.s, key);
    }
  }

  /** At the end of every such run: exactly when a restart, and exactly when a crash, changes no read. */
  lemma AnyRestartIff(memMax: nat, capacity: nat, background: bool, labels: seq<Label>, clean: bool)
    requires LiveRun(NewEngine(memMax, capacity, background), labels)
    ensures var t := Live(NewEngine(memMax, capacity, background), labels);
            var same := SameGets(Reopen(t.s, clean, memMax, capacity, background), t.s);
            var files, log := OnFiles(t.s, t.marks), LogStart(t.s, t.history);
            && (clean || t.s.log.pending == [] ==> (same <==> SafeBetween(t.history, files, log)))
            && (!clean ==> (same <==> CrashSafe(t.s, t.history, files, log)))
  {
    hide Layered, Live, LiveRun, Reopen, SameGets, SafeBetween, CrashSafe, AtRisk, Retained;
    AnyRun(memMax, capacity, background, labels);
    var t := Live(NewEngine(memMax, capacity, background), labels);
    if clean || t.s.log.pending == [] {
      RestartReadsExactly(t.s, t.history, t.marks, clean, memMax, capacity, background);
    }
    if !clean {
      CrashReadsExactly(t.s, t.history, t.marks, memMax, capacity, background);
    }
  }
}
