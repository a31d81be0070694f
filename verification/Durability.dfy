/** Restarts (src/storage_engine.rs, src/wal.rs): which puts the tables hold, which the memtables
    hold, and which the log still holds, as positions in the history; and what reopening gives. */
module Durability {
  import opened Results
  import opened Entries
  import opened Numbers
  import opened Records
  import opened WalLog
  import opened Memtables
  import opened Tables
  import opened EngineModel

  /** The log record of a put. */
  function Recs(history: seq<Entry>): (rs: seq<LogRecord>)
    ensures |rs| == |history|
  {
    seq(|history|, i requires 0 <= i < |history| => LogRecord(Records.Put, history[i]))
  }

  lemma {:induction false} EntriesOfRecs(history: seq<Entry>)
    ensures EntriesOf(Recs(history)) == history
  {
    if history != [] {
      assert Recs(history)[1..] == Recs(history[1..]);
      EntriesOfRecs(history[1..]);
    }
  }

  /** Positions in the history: the tables hold what came before `flushed`, the active memtable
      what came from `memStart` on, and the frozen one what came from `frozenStart` to there.
      `frozenSegment` is the active log segment when the memtable was frozen. */
  datatype Marks = Marks(flushed: nat, memStart: nat, frozenStart: nat, frozenSegment: nat)

  /** The history position of the oldest record the log still holds. */
  function LogStart(s: EngineState, history: seq<Entry>): int {
    |history| - |Retained(s.log)|
  }

  /** The history position of the first record in the active segment or its buffer. */
  function SegmentStart(s: EngineState, history: seq<Entry>): int {
    |history| - |s.log.pending| - |FileOf(s.log.files, s.log.active)|
  }

  function Ids(tables: seq<Table>): (ids: seq<nat>)
    ensures |ids| == |tables| && forall i :: 0 <= i < |tables| ==> ids[i] == tables[i].id
  {
    seq(|tables|, i requires 0 <= i < |tables| => tables[i].id)
  }

  /** The files on disk in order: the registered tables, then a file written but not registered. */
  ghost predicate InFileOrder(s: EngineState) {
    && Increasing(Ids(s.tables) + s.results)
    && (forall id :: id in s.disk <==> id in Ids(s.tables) + s.results)
    && (s.queue != [] ==> forall id :: id in s.disk ==> id < s.queue[0].id)
  }

  ghost predicate Layers(s: EngineState, history: seq<Entry>, g: Marks) {
    && g.flushed <= |history| && g.memStart <= |history|
    && TablesMap(s.tables) == Replay(history[..g.flushed])
    && s.mem.data == Replay(history[g.memStart..])
    && (if s.frozen.Some? then
          && g.frozenStart <= g.flushed <= g.memStart
          && s.frozen.value.data == Replay(history[g.frozenStart..g.memStart])
        else g.memStart <= g.flushed)
  }

  /** The log holds every put that a memtable holds. */
  ghost predicate LogCovers(s: EngineState, history: seq<Entry>, g: Marks) {
    LogStart(s, history) <= if s.frozen.Some? then g.frozenStart else g.memStart
  }

  /** While the segment of the freeze is still active, it holds everything put since. */
  ghost predicate FreezeSegmentKept(s: EngineState, history: seq<Entry>, g: Marks) {
    s.frozen.Some? ==>
      && g.frozenSegment <= s.log.active
      && (s.log.active == g.frozenSegment ==> SegmentStart(s, history) <= g.memStart)
  }

  /** What holds whatever the log has lost: the layers are the history, and the log its end. */
  ghost predicate Layered(s: EngineState, history: seq<Entry>, g: Marks) {
    && Structure(s) && InFileOrder(s) && Layers(s, history, g)
    && LogInv(s.log, Recs(history))
  }

  ghost predicate Durable(s: EngineState, history: seq<Entry>, g: Marks) {
    && Layered(s, history, g)
    && LogCovers(s, history, g)
    && FreezeSegmentKept(s, history, g)
  }

  // ---------- what the layers add up to ----------

  /** The layers together are the map of the whole history. */
  lemma LayersAreMap(s: EngineState, history: seq<Entry>, g: Marks)
    requires Layers(s, history, g)
    ensures View(s) == Replay(history)
  {
    hide Replay, TablesMap;
    if s.frozen.Some? {
      FrozenOverTables(history, g.frozenStart, g.flushed, g.memStart);
      ReplayOverlap(history, g.memStart, g.memStart);
    } else {
      ReplayOverlap(history, g.memStart, g.flushed);
      assert TablesMap(s.tables) + map[] == TablesMap(s.tables);
    }
  }

  /** A frozen memtable over the tables makes them hold everything before the active one. */
  lemma FrozenOverTables(history: seq<Entry>, from: nat, flushed: nat, upTo: nat)
    requires from <= flushed <= upTo <= |history|
    ensures Replay(history[..flushed]) + Replay(history[from..upTo]) == Replay(history[..upTo])
  {
    var front := history[..upTo];
    assert front[..flushed] == history[..flushed] && front[from..] == history[from..upTo];
    ReplayOverlap(front, from, flushed);
  }

  // ---------- the log under each step ----------

  lemma RecsAppend(history: seq<Entry>, e: Entry)
    ensures Recs(history + [e]) == Recs(history) + [LogRecord(Records.Put, e)]
  {}

  /** Appending keeps the log's start and, unless it rotates, the segment's start. */
  lemma AppendMarks(log: LogState, history: seq<Entry>, e: Entry)
    requires LogInv(log, Recs(history))
    ensures var log' := Append(log, LogRecord(Records.Put, e));
            var more := if Accepted(e) then 1 else 0;
            && LogInv(log', Recs(if Accepted(e) then history + [e] else history))
            && |Retained(log')| == |Retained(log)| + more
            && (log'.active == log.active ==>
                  |log'.pending| + |FileOf(log'.files, log'.active)|
                  == |log.pending| + |FileOf(log.files, log.active)| + more)
            && log'.active >= log.active
  {
    hide DiskRecords;
    RecsAppend(history, e);
    AppendKeeps(log, Recs(history), LogRecord(Records.Put, e));
  }

  /** Cleaning the log leaves exactly the active segment and its buffer. */
  lemma CleanMarks(log: LogState, records: seq<LogRecord>)
    requires LogInv(log, records)
    ensures LogInv(CleanLog(log), records)
    ensures |Retained(CleanLog(log))| == |log.pending| + |FileOf(log.files, log.active)|
    ensures CleanLog(log).active == log.active && CleanLog(log).pending == log.pending
    ensures FileOf(CleanLog(log).files, log.active) == FileOf(log.files, log.active)
  {
    hide DiskRecords;
    assert Retained(MarkFlushed(log)) == Retained(log);
    CleanupKeeps(MarkFlushed(log), records, 0);
    CleanupToActive(log, records);
  }

  lemma FlushMarks(log: LogState, records: seq<LogRecord>)
    requires LogInv(log, records)
    ensures LogInv(Flush(log), records) && |Retained(Flush(log))| == |Retained(log)|
    ensures Flush(log).active == log.active && Flush(log).pending == []
    ensures |FileOf(Flush(log).files, log.active)| == |log.pending| + |FileOf(log.files, log.active)|
  {
    hide DiskRecords;
    FlushKeeps(log, records);
  }

  /** The active segment is the last part of what the log retains. */
  lemma LogBounds(s: EngineState, history: seq<Entry>)
    requires LogInv(s.log, Recs(history))
    ensures 0 <= LogStart(s, history) <= SegmentStart(s, history)
    ensures SegmentStart(s, history) + |s.log.pending| <= |history|
    ensures |s.log.pending| <= |Retained(s.log)|
  {
    hide DiskRecords;
    DiskRecordsLast(s.log.files, s.log.active);
  }

  // ---------- each step keeps durability ----------

  /** Registering the written table moves the frozen puts into the tables, whatever the log. */
  lemma CompleteKeepsLayers(s: EngineState, history: seq<Entry>, g: Marks, stored: nat)
    requires stored <= |history|
    requires Structure(s) && InFileOrder(s) && Layers(s, history[..stored], g) && LogInv(s.log, Recs(history))
    requires s.results != []
    ensures var c := CompleteOne(s);
            var g' := g.(flushed := g.memStart);
            && Structure(c) && InFileOrder(c) && Layers(c, history[..stored], g') && LogInv(c.log, Recs(history))
            && LogStart(c, history) == SegmentStart(s, history)
            && c.frozen.None? && c.mem == s.mem && c.results == [] && c.log.pending == s.log.pending
  {
    hide Replay, TablesMap, SortedEntries, Sorted, Increasing, CleanLog, Retained, Structure, InFlight, Registered,
      FilesSorted, LogInv;
    var c := CompleteOne(s);
    CompleteOneShape(s);
    CompleteKeeps(s);
    CompleteIsOne(s);
    CleanMarks(s.log, Recs(history));
    FrozenOverTables(history[..stored], g.frozenStart, g.flushed, g.memStart);
    assert Ids(c.tables) + c.results == Ids(s.tables) + s.results;
  }

  lemma CompleteOneShape(s: EngineState)
    requires Structure(s) && s.results != []
    ensures var c := CompleteOne(s);
            && s.frozen.Some? && s.queue == [] && |s.results| == 1
            && c == s.(results := [], tables := c.tables, frozen := None, log := CleanLog(s.log))
            && Ids(c.tables) == Ids(s.tables) + [s.results[0]]
            && TablesMap(c.tables) == TablesMap(s.tables) + s.frozen.value.data
  {
    hide Replay, TablesMap, SortedEntries, CleanLog;
    SortedEntriesCorrect(s.frozen.value.data);
    TablesMapAppend(s.tables, Table(s.results[0], s.disk[s.results[0]]));
  }

  /** A synchronous flush puts the whole history into tables, so the log needs nothing. */
  lemma FlushSyncKeepsDurable(s: EngineState, history: seq<Entry>, g: Marks)
    requires Structure(s) && InFileOrder(s) && Layers(s, history, g) && LogInv(s.log, Recs(history))
    requires s.frozen.None? && s.mem.data != map[]
    ensures Durable(FlushSync(s).(waiting := false), history, Marks(|history|, |history|, 0, 0))
  {
    hide Replay, TablesMap, SortedEntries, Sorted, CleanLog, Retained, Structure, InFlight, Registered, FilesSorted,
      LogInv, FlushSync;
    var f := FlushSync(s);
    FlushSyncShape(s);
    FlushSyncKeeps(s);
    CleanMarks(s.log, Recs(history));
    ReplayOverlap(history, g.memStart, g.flushed);
    ReplayEnds(history);
    FileOrderNext(s, f.(waiting := false));
  }

  lemma ReplayEnds(history: seq<Entry>)
    ensures history[..|history|] == history && Replay(history[|history|..]) == map[]
  {}

  lemma FlushSyncShape(s: EngineState)
    requires Structure(s) && s.mem.data != map[] && s.frozen.None?
    ensures var f := FlushSync(s);
            && s.queue == [] && s.results == []
            && f.queue == [] && f.results == [] && f.frozen.None? && f.log == CleanLog(s.log)
            && Ids(f.tables) == Ids(s.tables) + [s.counter]
            && (forall id :: id in f.disk <==> id in s.disk || id == s.counter)
            && (forall id :: id in s.disk ==> id < s.counter)
  {
    hide SortedEntries, CleanLog, Sorted;
  }

  lemma FileOrderNext(s: EngineState, f: EngineState)
    requires InFileOrder(s) && s.results == [] && f.results == [] && f.queue == []
    requires Ids(f.tables) == Ids(s.tables) + [s.counter]
    requires forall id :: id in f.disk <==> id in s.disk || id == s.counter
    requires forall id :: id in s.disk ==> id < s.counter
    ensures InFileOrder(f)
  {
    var ids := Ids(s.tables);
    assert ids + [] == ids;
    assert Ids(f.tables) + [] == ids + [s.counter];
    assert forall i :: 0 <= i < |ids| ==> ids[i] in ids + [];
  }

  /** A put, with the marks it leaves behind. */
  function PutMarks(s: EngineState, history: seq<Entry>, g: Marks, e: Entry): Marks {
    if !Accepted(e) then g
    else
      var drained := if s.results == [] then g else g.(flushed := g.memStart);
      if !s.background && PutEntry(s, e).mem.data == map[] then Marks(|history| + 1, |history| + 1, 0, 0) else drained
  }

  /** No rotation since the freeze, if this step registers a table. */
  ghost predicate NoRotation(log: LogState, s: EngineState, g: Marks) {
    s.results != [] ==> log.active == g.frozenSegment
  }

  lemma PutKeepsLayered(s: EngineState, history: seq<Entry>, g: Marks, e: Entry)
    requires Layered(s, history, g) && !s.waiting
    ensures Layered(PutEntry(s, e), NextHistory(history, DoPut(e)), PutMarks(s, history, g, e))
  {
    hide Replay, TablesMap, Retained, Structure, LogInv, Append, Accepted, StoreEntry, InFileOrder, Complete;
    var logged := Logged(s, e);
    var history' := NextHistory(history, DoPut(e));
    AppendMarks(s.log, history, e);
    LogOnly(s, logged.log);
    LogOnlyFiles(s, logged.log);
    if Accepted(e) {
      assert history'[..|history|] == history;
      DrainKeepsLayers(logged, history', g, |history|);
      StoreKeepsLayered(Complete(logged), history, DrainMarks(s, g), e);
    }
  }

  /** The marks after finished tables are registered. */
  function DrainMarks(s: EngineState, g: Marks): Marks {
    if s.results == [] then g else g.(flushed := g.memStart)
  }

  lemma DrainKeepsLayers(s: EngineState, history: seq<Entry>, g: Marks, stored: nat)
    requires stored <= |history|
    requires Structure(s) && InFileOrder(s) && Layers(s, history[..stored], g) && LogInv(s.log, Recs(history))
    ensures var c := Complete(s);
            && Structure(c) && InFileOrder(c) && Layers(c, history[..stored], DrainMarks(s, g))
            && LogInv(c.log, Recs(history)) && c.waiting == s.waiting && c.background == s.background
            && (s.results == [] ==> c == s) && (s.results != [] ==> c == CompleteOne(s))
  {
    hide Replay, TablesMap, LogInv, CompleteOne, Structure, InFileOrder, Layers, Complete;
    CompleteIsOne(s);
    CompleteKeeps(s);
    if s.results != [] {
      CompleteKeepsLayers(s, history, g, stored);
    }
  }

  lemma PutKeepsDurable(s: EngineState, history: seq<Entry>, g: Marks, e: Entry)
    requires Durable(s, history, g) && !s.waiting
    requires NoRotation(Append(s.log, LogRecord(Records.Put, e)), s, g)
    ensures Durable(PutEntry(s, e), NextHistory(history, DoPut(e)), PutMarks(s, history, g, e))
  {
    hide Replay, TablesMap, SortedEntries, Sorted, Retained, Structure, InFlight, LogInv, Append, CleanLog, Accepted,
      PutState, FlushSync, InFileOrder, Layers, StoreEntry, Complete;
    PutKeepsLayered(s, history, g, e);
    var logged := Logged(s, e);
    var history' := NextHistory(history, DoPut(e));
    AppendMarks(s.log, history, e);
    assert FreezeSegmentKept(logged, history', g) && LogCovers(logged, history', g);
    if Accepted(e) {
      assert history'[..|history|] == history;
      LogOnly(s, logged.log);
      LogOnlyFiles(s, logged.log);
      LayersLog(s, history, g, logged.log);
      DrainKeepsLayers(logged, history', g, |history|);
      DrainKeepsCover(logged, history', g, |history|);
      StoreKeepsCover(Complete(logged), history, DrainMarks(s, g), e);
    }
  }

  lemma LayersLog(s: EngineState, history: seq<Entry>, g: Marks, log: LogState)
    requires Layers(s, history, g)
    ensures Layers(s.(log := log), history, g)
  {}

  /** A table registered in the segment of its freeze leaves the log covering the active memtable. */
  lemma DrainKeepsCover(s: EngineState, history: seq<Entry>, g: Marks, stored: nat)
    requires stored <= |history| && Structure(s) && InFileOrder(s) && Layers(s, history[..stored], g)
    requires LogInv(s.log, Recs(history)) && NoRotation(s.log, s, g)
    requires LogCovers(s, history, g) && FreezeSegmentKept(s, history, g)
    ensures var g' := DrainMarks(s, g);
            LogCovers(Complete(s), history, g') && FreezeSegmentKept(Complete(s), history, g')
  {
    hide Replay, TablesMap, Retained, LogInv, InFileOrder, Structure, Layers, CompleteOne;
    CompleteIsOne(s);
    if s.results != [] {
      CompleteOneShape(s);
      CompleteKeepsLayers(s, history, g, stored);
    }
  }

  lemma LogOnlyFiles(s: EngineState, log: LogState)
    requires InFileOrder(s)
    ensures InFileOrder(s.(log := log))
  {}

  /** The marks after a put is stored: a flush at once leaves nothing in the memtables. */
  function StoreMarks(s: EngineState, history: seq<Entry>, g: Marks, e: Entry): Marks {
    if !s.background && StoreEntry(s, e).mem.data == map[] then Marks(|history| + 1, |history| + 1, 0, 0) else g
  }

  /** Storing a logged put in the memtable, and flushing it at once or waiting when it is full. */
  lemma StoreKeepsLayered(s: EngineState, history: seq<Entry>, g: Marks, e: Entry)
    requires Structure(s) && InFileOrder(s) && Layers(s, history, g) && !s.waiting
    requires LogInv(s.log, Recs(history + [e]))
    ensures Layered(StoreEntry(s, e), history + [e], StoreMarks(s, history, g, e))
  {
    hide Replay, TablesMap, LogInv, FlushSync, InFileOrder, Layers, Structure, PutState;
    var stored := s.(mem := PutState(s.mem, e));
    LayersStore(s, history, g, e);
    StoreStructure(s, e);
    if stored.mem.Full() {
      if s.background {
        LayersWait(stored, history + [e], g);
      } else {
        FrozenOnlyInBackground(s);
        FlushSyncKeepsDurable(stored, history + [e], g);
        FlushSyncKeeps(stored);
        assert FlushSync(stored).(waiting := false) == FlushSync(stored);
      }
    }
  }

  lemma LayersWait(s: EngineState, history: seq<Entry>, g: Marks)
    requires Layers(s, history, g)
    ensures Layers(s.(waiting := true), history, g)
  {}

  lemma StoreKeepsCover(s: EngineState, history: seq<Entry>, g: Marks, e: Entry)
    requires Structure(s) && InFileOrder(s) && Layers(s, history, g) && LogInv(s.log, Recs(history + [e]))
    requires LogCovers(s, history + [e], g) && FreezeSegmentKept(s, history + [e], g)
    ensures var g' := StoreMarks(s, history, g, e);
            LogCovers(StoreEntry(s, e), history + [e], g') && FreezeSegmentKept(StoreEntry(s, e), history + [e], g')
  {
    hide Replay, TablesMap, LogInv, FlushSync, InFileOrder, Layers, Structure, PutState, Retained;
    var stored := s.(mem := PutState(s.mem, e));
    LayersStore(s, history, g, e);
    StoreStructure(s, e);
    if stored.mem.Full() && !s.background {
      FrozenOnlyInBackground(s);
      FlushSyncKeepsDurable(stored, history + [e], g);
      FlushSyncKeeps(stored);
    }
  }

  lemma FrozenOnlyInBackground(s: EngineState)
    requires Structure(s) && !s.background
    ensures s.frozen.None?
  {}

  lemma StoreStructure(s: EngineState, e: Entry)
    requires Structure(s) && InFileOrder(s)
    ensures var stored := s.(mem := PutState(s.mem, e));
            Structure(stored) && InFileOrder(stored) && (s.background ==> Structure(stored.(waiting := true)))
            && InFileOrder(stored.(waiting := true)) && stored.mem.data != map[]
  {
    hide SortedEntries, Sorted, Increasing;
    var m := PutState(s.mem, e);
    assert e.key in m.data;
  }

  lemma LayersStore(s: EngineState, history: seq<Entry>, g: Marks, e: Entry)
    requires Layers(s, history, g)
    ensures Layers(s.(mem := PutState(s.mem, e)), history + [e], g)
  {
    hide Replay, TablesMap;
    var longer := history + [e];
    assert longer[..g.flushed] == history[..g.flushed];
    assert longer[g.memStart..] == history[g.memStart..] + [e];
    ReplayAppend(history[g.memStart..], e);
    if s.frozen.Some? {
      assert longer[g.frozenStart..g.memStart] == history[g.frozenStart..g.memStart];
    }
  }

  lemma PollKeepsLayered(s: EngineState, history: seq<Entry>, g: Marks)
    requires Layered(s, history, g)
    ensures Layered(Complete(s), history, DrainMarks(s, g))
  {
    hide Replay, TablesMap, Retained, LogInv, InFileOrder, Structure, Layers, Complete;
    assert history[..|history|] == history;
    DrainKeepsLayers(s, history, g, |history|);
  }

  lemma PollKeepsDurable(s: EngineState, history: seq<Entry>, g: Marks)
    requires Durable(s, history, g) && NoRotation(s.log, s, g)
    ensures Durable(Complete(s), history, DrainMarks(s, g))
  {
    hide Replay, TablesMap, Retained, LogInv, InFileOrder, Structure, Layers, Complete;
    assert history[..|history|] == history;
    PollKeepsLayered(s, history, g);
    DrainKeepsCover(s, history, g, |history|);
  }

  lemma WriteKeepsLayered(s: EngineState, history: seq<Entry>, g: Marks)
    requires Layered(s, history, g)
    ensures Layered(BackgroundWrite(s), history, g)
  {
    hide Replay, TablesMap, SortedEntries, Sorted, Retained, LogInv;
    WriteKeeps(s);
    if s.queue != [] {
      SortedEntriesNonEmpty(s.frozen.value.data);
      var w := BackgroundWrite(s);
      var ids := Ids(s.tables);
      assert s.results == [] && ids + s.results == ids;
      assert Ids(w.tables) + w.results == ids + [s.queue[0].id];
      assert forall i :: 0 <= i < |ids| ==> ids[i] in ids + s.results;
    }
  }

  lemma FreezeKeepsLayered(s: EngineState, history: seq<Entry>, g: Marks)
    requires Layered(s, history, g) && Enabled(s, DoFreeze)
    ensures Layered(Freeze(s), history, FreezeMarks(s, history, g))
  {
    hide Replay, TablesMap, SortedEntries, Sorted, Retained, LogInv, RunPuts;
    FreezeKeeps(s);
    ReplayEnds(history);
    assert history[g.memStart..|history|] == history[g.memStart..];
    assert s.queue == [] && s.results == [];
  }

  function FreezeMarks(s: EngineState, history: seq<Entry>, g: Marks): Marks {
    Marks(g.flushed, |history|, g.memStart, s.log.active)
  }

  lemma FreezeKeepsDurable(s: EngineState, history: seq<Entry>, g: Marks)
    requires Durable(s, history, g) && Enabled(s, DoFreeze)
    ensures Durable(Freeze(s), history, FreezeMarks(s, history, g))
  {
    FreezeKeepsLayered(s, history, g);
    LogBounds(s, history);
    hide Layered, Retained, SortedEntries, RunPuts;
  }

  lemma LogFlushKeepsLayered(s: EngineState, history: seq<Entry>, g: Marks)
    requires Layered(s, history, g)
    ensures Layered(s.(log := Flush(s.log)), history, g)
  {
    hide Replay, TablesMap, Structure, InFileOrder, Retained, LogInv;
    FlushMarks(s.log, Recs(history));
    LogOnly(s, Flush(s.log));
    LogOnlyFiles(s, Flush(s.log));
  }

  lemma LogLimitKeepsLayered(s: EngineState, history: seq<Entry>, g: Marks, n: nat)
    requires Layered(s, history, g)
    ensures Layered(s.(log := s.log.(limit := n)), history, g)
  {
    hide Replay, TablesMap, Structure, InFileOrder, DiskRecords;
    LogOnly(s, s.log.(limit := n));
    LogOnlyFiles(s, s.log.(limit := n));
    assert Retained(s.log.(limit := n)) == Retained(s.log);
  }

  // ---------- reopening ----------

  /** The puts whose records are on disk: the retained part of the history without the buffer. */
  function OnDisk(s: EngineState, history: seq<Entry>): seq<Entry>
    requires 0 <= LogStart(s, history) && |s.log.pending| <= |Retained(s.log)|
  {
    history[LogStart(s, history)..|history| - |s.log.pending|]
  }

  /** The position up to which the files on disk hold the history. */
  function OnFiles(s: EngineState, g: Marks): nat {
    if s.results == [] then g.flushed else g.memStart
  }

  /** Whatever is flushed or buffered, a reopened engine sees the puts in the table files
      overridden by the puts whose records are on disk. */
  lemma ReopenView(s: EngineState, history: seq<Entry>, g: Marks, memMax: nat, capacity: nat, background: bool)
    requires Structure(s) && InFileOrder(s) && Layers(s, history, g) && LogInv(s.log, Recs(history))
    ensures View(Reopen(s, false, memMax, capacity, background)) ==
            Replay(history[..OnFiles(s, g)]) + Replay(OnDisk(s, history))
  {
    hide Replay, TablesMap, SortedEntries, Sorted, Structure, InFileOrder, Latest, DiskRecords, Ascending;
    var r := Reopen(s, false, memMax, capacity, background);
    ReopenTables(s, history, g);
    ReopenMemtable(s, history, memMax, capacity);
    assert TablesMap(r.tables) + map[] == TablesMap(r.tables);
  }

  lemma ReopenMemtable(s: EngineState, history: seq<Entry>, memMax: nat, capacity: nat)
    requires LogInv(s.log, Recs(history))
    ensures var log := OpenLog(s.log.files, capacity);
            && RunPuts(EmptyState(memMax), EntriesOf(DiskRecords(log.files))).data == Replay(OnDisk(s, history))
            && Retained(log) == Recs(OnDisk(s, history))
            && LogInv(log, Recs(history[..|history| - |s.log.pending|]))
            && log.pending == [] && log.files[log.active] == []
  {
    hide DiskRecords, Replay, RunPuts, EntriesOf;
    var kept := history[..|history| - |s.log.pending|];
    var durable := DiskRecords(s.log.files);
    LatestIsActive(s.log);
    assert Recs(kept) == Recs(history)[..|kept|];
    assert durable == Recs(OnDisk(s, history)) by {
      assert Retained(s.log) == Recs(history)[LogStart(s, history)..];
      assert durable == Retained(s.log)[..|durable|];
    }
    assert IsSuffix(durable, Recs(kept));
    OpenKeeps(s.log.files, capacity, Recs(kept));
    var log := OpenLog(s.log.files, capacity);
    assert Retained(log) == DiskRecords(log.files) + [] == DiskRecords(log.files);
    EntriesOfRecs(OnDisk(s, history));
    Accounting(memMax, OnDisk(s, history));
  }

  /** The table files sorted by number are the registered tables and then the unregistered one. */
  lemma ReopenTables(s: EngineState, history: seq<Entry>, g: Marks)
    requires Structure(s) && InFileOrder(s) && Layers(s, history, g)
    ensures TablesMap(TablesOnDisk(s.disk)) == Replay(history[..OnFiles(s, g)])
    ensures Ids(TablesOnDisk(s.disk)) == Ids(s.tables) + s.results
    ensures OnFiles(s, g) >= g.flushed
  {
    hide Replay, TablesMap, SortedEntries, Sorted, Increasing, TablesOnDisk, InFileOrder;
    DiskOrder(s);
    if s.results == [] {
      assert s.tables + [] == s.tables && Ids(s.tables) + [] == Ids(s.tables);
    } else {
      TablesMapAppend(s.tables, Table(s.results[0], s.disk[s.results[0]]));
      SortedEntriesCorrect(s.frozen.value.data);
      FrozenOverTables(history, g.frozenStart, g.flushed, g.memStart);
    }
  }

  lemma DiskOrder(s: EngineState)
    requires Structure(s) && InFileOrder(s)
    ensures s.results != [] ==> s.results == [s.results[0]] && s.results[0] in s.disk
    ensures TablesOnDisk(s.disk) ==
            s.tables + (if s.results == [] then [] else [Table(s.results[0], s.disk[s.results[0]])])
  {
    hide SortedEntries, Sorted, Increasing;
    AscendingUnique(Ids(s.tables) + s.results, s.disk.Keys);
  }

  lemma DiskTablesSorted(s: EngineState)
    requires Structure(s)
    ensures TablesSorted(TablesOnDisk(s.disk))
  {
    hide Sorted, Ascending, InFlight;
  }

  function ReopenMarks(s: EngineState, history: seq<Entry>, g: Marks): Marks {
    var start := LogStart(s, history);
    Marks(OnFiles(s, g), if start >= 0 then start else 0, 0, 0)
  }

  lemma ReopenStructure(s: EngineState, memMax: nat, capacity: nat, background: bool)
    requires Structure(s) && InFileOrder(s)
    ensures var r := Reopen(s, false, memMax, capacity, background);
            Structure(r) && InFileOrder(r)
  {
    hide Sorted, DiskRecords, RunPuts, OpenLog, SortedEntries, Ascending, Increasing;
    var r := Reopen(s, false, memMax, capacity, background);
    var order := Ascending(s.disk.Keys);
    AscendingIncreasing(s.disk.Keys);
    assert Ids(r.tables) == order && order + [] == order;
  }

  /** Reopening with nothing buffered keeps durability: the memtable is refilled from the log. */
  lemma ReopenKeepsDurable(s: EngineState, history: seq<Entry>, g: Marks, memMax: nat, capacity: nat, background: bool)
    requires Durable(s, history, g) && s.log.pending == []
    ensures Durable(Reopen(s, false, memMax, capacity, background), history, ReopenMarks(s, history, g))
  {
    hide Replay, TablesMap, Structure, InFileOrder, DiskRecords, RunPuts, TablesOnDisk;
    ReopenStructure(s, memMax, capacity, background);
    ReopenTables(s, history, g);
    ReopenMemtable(s, history, memMax, capacity);
    assert history[..|history|] == history;
    assert OnDisk(s, history) == history[LogStart(s, history)..];
  }

  /** A clean close is a flush of the log and then a restart. */
  lemma CleanReopenIsFlush(s: EngineState, memMax: nat, capacity: nat, background: bool)
    ensures Reopen(s, true, memMax, capacity, background)
            == Reopen(s.(log := Flush(s.log)), false, memMax, capacity, background)
  {
    assert Flush(Flush(s.log)) == Flush(s.log);
  }

  lemma LogFlushKeepsDurable(s: EngineState, history: seq<Entry>, g: Marks)
    requires Durable(s, history, g)
    ensures Durable(s.(log := Flush(s.log)), history, g)
  {
    hide Layers, Structure, InFileOrder, Retained, LogInv;
    LogFlushKeepsLayered(s, history, g);
    FlushMarks(s.log, Recs(history));
  }
}
