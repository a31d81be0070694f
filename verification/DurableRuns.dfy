/** Whole runs with restarts (src/storage_engine.rs, src/wal.rs): over every safe run reads return the
    last put, and the log covers the memtables. */
module DurableRuns {
  import opened Bytes
  import opened Entries
  import opened Records
  import opened WalLog
  import opened Tables
  import opened EngineModel
  import opened Durability

  datatype Tracked = Tracked(s: EngineState, history: seq<Entry>, marks: Marks)

  function NextMarks(t: Tracked, l: Label): Marks {
    match l
    case DoPut(e) => PutMarks(t.s, t.history, t.marks, e)
    case DoPoll => DrainMarks(t.s, t.marks)
    case DoFreeze => FreezeMarks(t.s, t.history, t.marks)
    case DoReopen(clean, _, _, _) =>
      ReopenMarks(if clean then t.s.(log := Flush(t.s.log)) else t.s, t.history, t.marks)
    case _ => t.marks
  }

  function Track(start: EngineState, labels: seq<Label>): Tracked {
    if labels == [] then Tracked(start, [], Marks(0, 0, 0, 0))
    else
      var t := Track(start, labels[..|labels| - 1]);
      var l := labels[|labels| - 1];
      Tracked(Next(t.s, l), NextHistory(t.history, l), NextMarks(t, l))
  }

  /** A step that keeps every put recoverable: no fallback, no compaction, no table registered after
      the log has rotated since its freeze, and no crash with records still buffered. */
  ghost predicate SafeStep(t: Tracked, l: Label) {
    && Enabled(t.s, l)
    && match l
       case DoPut(e) => NoRotation(Append(t.s.log, LogRecord(Records.Put, e)), t.s, t.marks)
       case DoPoll => NoRotation(t.s.log, t.s, t.marks)
       case DoFallback => false
       case DoCompactingPut(_, _, _) => false
       case DoCompact(_, _) => false
       case DoReopen(clean, _, _, _) => clean || t.s.log.pending == []
       case _ => true
  }

  ghost predicate SafeRun(start: EngineState, labels: seq<Label>) {
    labels == [] ||
    (var front := labels[..|labels| - 1];
     SafeRun(start, front) && SafeStep(Track(start, front), labels[|labels| - 1]))
  }

  lemma NewEngineDurable(memMax: nat, capacity: nat, background: bool)
    ensures Durable(NewEngine(memMax, capacity, background), [], Marks(0, 0, 0, 0))
  {
    DiskRecordsEmpty();
    OpenKeeps(map[], capacity, []);
    assert Recs([]) == [];
  }

  lemma StepKeepsDurable(t: Tracked, l: Label)
    requires Durable(t.s, t.history, t.marks) && SafeStep(t, l)
    ensures Durable(Next(t.s, l), NextHistory(t.history, l), NextMarks(t, l))
  {
    hide Durable, PutEntry, Complete, BackgroundWrite, Freeze, Reopen, PutMarks, ReopenMarks, NoRotation, Flush,
      Fallback;
    var s, history, g := t.s, t.history, t.marks;
    match l {
      case DoPut(e) => PutKeepsDurable(s, history, g, e);
      case DoPoll => PollKeepsDurable(s, history, g);
      case DoWrite => DurableWrite(s, history, g);
      case DoFreeze => FreezeKeepsDurable(s, history, g);
      case DoLogFlush => LogFlushKeepsDurable(s, history, g);
      case DoLogLimit(n) => DurableLogLimit(s, history, g, n);
      case DoReopen(clean, memMax, capacity, background) =>
        if clean {
          LogFlushKeepsDurable(s, history, g);
          CleanReopenIsFlush(s, memMax, capacity, background);
          FlushEmpties(s.log);
          ReopenKeepsDurable(s.(log := Flush(s.log)), history, g, memMax, capacity, background);
        } else {
          ReopenKeepsDurable(s, history, g, memMax, capacity, background);
        }
    }
  }

  lemma FlushEmpties(log: LogState)
    ensures Flush(log).pending == []
  {}

  lemma DurableWrite(s: EngineState, history: seq<Entry>, g: Marks)
    requires Durable(s, history, g)
    ensures Durable(BackgroundWrite(s), history, g)
  {
    hide Layered, Retained;
    WriteKeepsLayered(s, history, g);
  }

  lemma DurableLogLimit(s: EngineState, history: seq<Entry>, g: Marks, n: nat)
    requires Durable(s, history, g)
    ensures Durable(s.(log := s.log.(limit := n)), history, g)
  {
    hide Layered, DiskRecords;
    LogLimitKeepsLayered(s, history, g, n);
    assert Retained(s.log.(limit := n)) == Retained(s.log);
  }

  /** Over every safe run, with any memtable limits, segment limits, buffer sizes, modes and
      repeated restarts: reads return the last put, and the log holds every put not in a table. */
  lemma {:induction false} DurableRun(memMax: nat, capacity: nat, background: bool, labels: seq<Label>)
    requires SafeRun(NewEngine(memMax, capacity, background), labels)
    ensures var t := Track(NewEngine(memMax, capacity, background), labels);
            && Durable(t.s, t.history, t.marks)
            && View(t.s) == Replay(t.history)
            && forall key :: Get(t.s, key) == Read(Replay(t.history), key)
  {
    hide Durable, Next, NextMarks, NextHistory, SafeStep, View, Get, Replay;
    var start := NewEngine(memMax, capacity, background);
    if labels == [] {
      NewEngineDurable(memMax, capacity, background);
    } else {
      var front := labels[..|labels| - 1];
      DurableRun(memMax, capacity, background, front);
      StepKeepsDurable(Track(start, front), labels[|labels| - 1]);
    }
    var t := Track(start, labels);
    DurableReads(t);
  }

  lemma DurableReads(t: Tracked)
    requires Durable(t.s, t.history, t.marks)
    ensures View(t.s) == Replay(t.history)
    ensures forall key :: Get(t.s, key) == Read(Replay(t.history), key)
  {
    LayersAreMap(t.s, t.history, t.marks);
    forall key ensures Get(t.s, key) == Read(Replay(t.history), key) {
      GetIsView(t.s, key);
    }
  }

  /** In every durable state, the latest put of each key in either memtable is still in the log:
      replaying what the log retains gives that key its current version. */
  lemma MemtableKeysLogged(t: Tracked, key: ByteString)
    requires Durable(t.s, t.history, t.marks)
    requires key in t.s.mem.data || key in FrozenMap(t.s)
    ensures 0 <= LogStart(t.s, t.history) <= |t.history|
    ensures Recs(t.history[LogStart(t.s, t.history)..]) == Retained(t.s.log)
    ensures var logged := Replay(t.history[LogStart(t.s, t.history)..]);
            key in logged && key in Replay(t.history) && logged[key] == Replay(t.history)[key]
  {
    RetainedFrom(t.s, t.history);
    hide Replay, Structure, InFileOrder, Retained, TablesMap, LogInv, Recs;
    var history, start := t.history, LogStart(t.s, t.history);
    if key in t.s.mem.data {
      assert history[t.marks.memStart..|history|] == history[t.marks.memStart..];
      KeyLogged(history, start, t.marks.memStart, |history|, key);
    } else {
      KeyLogged(history, start, t.marks.frozenStart, t.marks.memStart, key);
    }
  }

  lemma RetainedFrom(s: EngineState, history: seq<Entry>)
    requires LogInv(s.log, Recs(history))
    ensures 0 <= LogStart(s, history) <= |history|
    ensures Recs(history[LogStart(s, history)..]) == Retained(s.log)
  {
    LogBounds(s, history);
    hide DiskRecords;
    assert Recs(history)[LogStart(s, history)..] == Recs(history[LogStart(s, history)..]);
  }

  lemma KeyLogged(history: seq<Entry>, start: nat, at: nat, upTo: nat, key: ByteString)
    requires start <= at <= upTo <= |history| && key in Replay(history[at..upTo])
    ensures key in Replay(history[start..]) && key in Replay(history)
    ensures Replay(history[start..])[key] == Replay(history)[key]
  {
    hide Replay;
    CutTwice(history, start, at);
    CutTwice(history, at, upTo);
    ReplayConcat(history[at..upTo], history[upTo..]);
    ReplayConcat(history[start..at], history[at..]);
    ReplayConcat(history[..start], history[start..at] + history[at..]);
  }

  /** Restarting a durable engine with an empty log buffer leaves every read unchanged. */
  lemma RestartPreservesReads(t: Tracked, memMax: nat, capacity: nat, background: bool)
    requires Durable(t.s, t.history, t.marks) && t.s.log.pending == []
    ensures var r := Reopen(t.s, false, memMax, capacity, background);
            forall key :: Get(r, key) == Get(t.s, key)
  {
    hide Durable, Get, Reopen, Replay;
    ReopenKeepsDurable(t.s, t.history, t.marks, memMax, capacity, background);
    var r := Reopen(t.s, false, memMax, capacity, background);
    DurableReads(t);
    DurableReads(Tracked(r, t.history, ReopenMarks(t.s, t.history, t.marks)));
  }
}
