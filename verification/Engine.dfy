/** The storage engine object (src/storage_engine.rs), with compaction off. Its methods are proved
    to be steps of the state machine in EngineModel. */
module Engines {
  import opened Bytes
  import opened Results
  import opened Entries
  import opened Numbers
  import opened Records
  import opened WalLog
  import opened Wals
  import opened Memtables
  import opened Tables
  import opened EngineModel
  import opened EngineRuns
  import EngineScan

  /** The state after a sequence of steps. */
  function RunLabels(s: EngineState, labels: seq<Label>): EngineState {
    if labels == [] then s else Next(RunLabels(s, labels[..|labels| - 1]), labels[|labels| - 1])
  }

  /** What may happen while a put waits: completions and writes by the flush thread. */
  ghost predicate Idle(labels: seq<Label>) {
    forall l :: l in labels ==> l == DoPoll || l == DoWrite
  }

  /** The turns a put waits for the flush thread. */
  const MAX_WAIT: nat := 100

  function Polls(labels: seq<Label>): nat {
    if labels == [] then 0
    else Polls(labels[..|labels| - 1]) + (if labels[|labels| - 1] == DoPoll then 1 else 0)
  }

  /** A waiting put ends in a freeze, or in the fallback if a frozen memtable is still there. */
  function EndWait(s: EngineState): EngineState {
    if s.frozen.Some? then Next(s, DoFallback) else Next(s, DoFreeze)
  }

  /** The wait looks for finished tables at most 100 times, and no fewer if it ends in the fallback. */
  ghost predicate WaitEnds(s: EngineState, t: EngineState) {
    exists labels ::
      && Idle(labels) && Polls(labels) <= 100
      && (RunLabels(s, labels).frozen.Some? ==> Polls(labels) == 100)
      && t == EndWait(RunLabels(s, labels))
  }

  /** A put as a run of the state machine: one step, and the wait if the memtable filled up. */
  ghost predicate PutRun(s: EngineState, e: Entry, t: EngineState) {
    var p := PutEntry(s, e);
    if p.waiting then WaitEnds(p, t) else t == p
  }

  lemma IdleStep(s: EngineState, labels: seq<Label>, l: Label)
    requires Idle(labels) && (l == DoPoll || l == DoWrite)
    ensures RunLabels(s, labels + [l]) == Next(RunLabels(s, labels), l) && Idle(labels + [l])
    ensures Polls(labels + [l]) == Polls(labels) + if l == DoPoll then 1 else 0
  {
    assert (labels + [l])[..|labels|] == labels;
  }

  /** Idle steps change neither the reads, nor the active memtable, nor the wait, and the frozen
      memtable either stays or goes. */
  lemma {:induction false} IdleKeeps(s: EngineState, labels: seq<Label>)
    requires Structure(s) && Idle(labels)
    ensures var w := RunLabels(s, labels);
            && Structure(w) && View(w) == View(s) && w.mem == s.mem && w.waiting == s.waiting
            && (w.frozen == s.frozen || w.frozen.None?)
  {
    if labels != [] {
      hide Structure, View, Complete, BackgroundWrite;
      var front, l := labels[..|labels| - 1], labels[|labels| - 1];
      assert forall m :: m in front ==> m in labels;
      assert l in labels;
      IdleKeeps(s, front);
      var w := RunLabels(s, front);
      CompleteKeeps(w);
      WriteKeeps(w);
      IdleFrozen(w);
    }
  }

  /** Idle steps never touch the active memtable, whatever the state. */
  lemma {:induction false} IdleMemtable(s: EngineState, labels: seq<Label>)
    requires Idle(labels)
    ensures RunLabels(s, labels).mem == s.mem
  {
    if labels != [] {
      hide BackgroundWrite, Complete;
      var front, l := labels[..|labels| - 1], labels[|labels| - 1];
      assert forall m :: m in front ==> m in labels;
      assert l in labels;
      IdleMemtable(s, front);
      CompleteMemtable(RunLabels(s, front));
      WriteMemtable(RunLabels(s, front));
    }
  }

  lemma {:induction false} CompleteMemtable(s: EngineState)
    ensures Complete(s).mem == s.mem
    decreases |s.results|
  {
    if s.results != [] {
      CompleteMemtable(CompleteOne(s));
    }
  }

  lemma WriteMemtable(s: EngineState)
    ensures BackgroundWrite(s).mem == s.mem
  {}

  lemma IdleFrozen(s: EngineState)
    requires Structure(s)
    ensures Complete(s).frozen == s.frozen || Complete(s).frozen.None?
    ensures BackgroundWrite(s).frozen == s.frozen && BackgroundWrite(s).mem == s.mem
    ensures BackgroundWrite(s).waiting == s.waiting
  {
    CompleteIsOne(s);
  }

  /** After an accepted put of the engine object, whatever the flush thread did meanwhile, reads are
      those of the map with the key updated, unless the put waited over memtables that disagree. */
  lemma PutRunReads(s: EngineState, e: Entry, t: EngineState)
    requires Structure(s) && !s.waiting && Accepted(e) && PutRun(s, e, t)
    ensures Structure(t) && !t.waiting
    ensures SameReads(View(t), View(s)[e.key := e.Ver()])
            || (PutEntry(s, e).waiting && !MemtablesAgree(PutEntry(s, e)))
  {
    hide Structure, PutEntry, Freeze, Fallback, View, RunLabels, Complete, BackgroundWrite;
    var p := PutEntry(s, e);
    PutKeeps(s, e);
    if p.waiting {
      var labels :| Idle(labels) && t == EndWait(RunLabels(p, labels));
      var w := RunLabels(p, labels);
      IdleKeeps(p, labels);
      EndWaitDone(w);
      if w.frozen.Some? {
        FallbackReadsIff(w);
      } else {
        FreezeKeeps(w);
      }
    }
  }

  lemma EndWaitDone(w: EngineState)
    ensures !EndWait(w).waiting
  {}

  class StorageEngine {
    const wal: Wal
    var memtable: MemTable
    var immutableMemtable: MemTable?
    var sstables: seq<Table>
    var diskFiles: map<nat, seq<Entry>>
    var sstableCounter: nat
    const memtableMaxSize: nat
    const backgroundFlushEnabled: bool
    var flushQueue: seq<FlushMessage>
    var flushResults: seq<nat>

    ghost function Repr(): set<object>
      reads this, wal
    {
      {this, wal, wal.dir, wal.current, memtable}
      + (if immutableMemtable == null then {} else {immutableMemtable as MemTable})
    }

    ghost predicate Valid()
      reads this, wal, wal.dir, wal.current, memtable, immutableMemtable
    {
      && wal.Valid()
      && memtable.Valid() && memtable.maxSize == memtableMaxSize
      && (immutableMemtable != null ==> immutableMemtable.Valid() && immutableMemtable != memtable)
      && (forall m :: m in flushQueue ==> m.entries != [])
      && (forall id :: id in flushResults ==> id in diskFiles)
    }

    /** The engine's state; `waiting` says whether a put is in its wait. */
    ghost function State(waiting: bool): EngineState
      reads this, wal, memtable, immutableMemtable
    {
      EngineState(wal.log, memtable.State(),
                  if immutableMemtable == null then None else Some(immutableMemtable.State()),
                  sstables, diskFiles, flushQueue, flushResults, sstableCounter, memtableMaxSize,
                  backgroundFlushEnabled, waiting)
    }

    /** Starts over a log and the table files found: replays every segment, registers the tables in
        number order, and numbers new files after the last one. */
    constructor (wal: Wal, files: map<nat, seq<Entry>>, memtableMaxSize: nat, backgroundFlush: bool)
      requires wal.Valid()
      ensures Valid() && this.wal == wal && fresh(memtable)
      ensures State(false) == Recovered(wal.log, files, memtableMaxSize, backgroundFlush)
    {
      hide Wal.Valid, EntriesOf, DiskRecords, RunPuts;
      RecoverValid(wal);
      var recovered := Wal.RecoverDirectory(wal.crc, wal.dir);
      var table := new MemTable(memtableMaxSize);
      table := Refill(table, recovered.value);
      this.wal, memtable, immutableMemtable := wal, table, null;
      sstables := TablesOnDisk(files);
      diskFiles := files;
      sstableCounter := Latest(files.Keys) + 1;
      this.memtableMaxSize, backgroundFlushEnabled := memtableMaxSize, backgroundFlush;
      flushQueue, flushResults := [], [];
    }

    method FlushOneResult(id: nat, ghost waiting: bool)
      requires Valid() && flushResults != [] && id == flushResults[0]
      modifies this, wal, wal.dir
      ensures Valid() && memtable == old(memtable) && wal.current == old(wal.current)
      ensures immutableMemtable == null
      ensures State(waiting) == CompleteOne(old(State(waiting)))
    {
      hide Wal.Valid;
      flushResults := flushResults[1..];
      sstables := sstables + [Table(id, diskFiles[id])];
      immutableMemtable := null;
      CleanupWalAfterFlush();
    }

    /** Registers every table the flush thread has reported. */
    method CheckFlushCompletion(ghost waiting: bool)
      requires Valid()
      modifies this, wal, wal.dir
      ensures Valid() && memtable == old(memtable) && wal.current == old(wal.current)
      ensures immutableMemtable == old(immutableMemtable) || immutableMemtable == null
      ensures State(waiting) == Complete(old(State(waiting)))
    {
      hide Wal.Valid, CompleteOne;
      while flushResults != []
        invariant Valid() && memtable == old(memtable) && wal.current == old(wal.current)
        invariant immutableMemtable == old(immutableMemtable) || immutableMemtable == null
        invariant Complete(State(waiting)) == Complete(old(State(waiting)))
        decreases |flushResults|
      {
        CompleteOneResults(State(waiting));
        FlushOneResult(flushResults[0], waiting);
      }
    }

    method CleanupWalAfterFlush()
      requires wal.Valid()
      modifies wal, wal.dir
      ensures wal.Valid() && wal.current == old(wal.current)
      ensures wal.log == CleanLog(old(wal.log))
    {
      wal.MarkFlushed();
      wal.CleanupOldSegments(0);
    }

    /** Writes the memtable to a new table file and registers it. */
    method FlushMemtableSync(ghost waiting: bool)
      requires Valid()
      modifies this, wal, wal.dir
      ensures Valid() && wal.current == old(wal.current)
      ensures memtable == old(memtable) || fresh(memtable)
      ensures immutableMemtable == old(immutableMemtable)
      ensures State(waiting) == FlushSync(old(State(waiting)))
    {
      hide Wal.Valid, SortedEntries;
      if memtable.IsEmpty() {
        return;
      }
      var id := sstableCounter;
      sstableCounter := sstableCounter + 1;
      var entries := memtable.EntriesWithTimestamps();
      memtable := new MemTable(memtableMaxSize);
      diskFiles := diskFiles[id := entries];
      sstables := sstables + [Table(id, entries)];
      CleanupWalAfterFlush();
    }

    /** The flush thread: takes one message, writes its file and reports it. */
    method BackgroundWriteStep(ghost waiting: bool)
      requires Valid()
      modifies this
      ensures Valid() && memtable == old(memtable) && immutableMemtable == old(immutableMemtable)
      ensures State(waiting) == BackgroundWrite(old(State(waiting)))
    {
      hide Wal.Valid;
      if flushQueue != [] {
        var m := flushQueue[0];
        flushQueue := flushQueue[1..];
        if m.entries != [] {
          diskFiles := diskFiles[m.id := m.entries];
        }
        flushResults := flushResults + [m.id];
      }
    }

    /** Puts a copy of the memtable aside and sends its entries to the flush thread. */
    method FreezeMemtable()
      requires Valid() && immutableMemtable == null && memtable.data != map[]
      modifies this
      ensures Valid() && fresh(memtable) && fresh(immutableMemtable)
      ensures State(false) == Freeze(old(State(true)))
    {
      hide Wal.Valid, SortedEntries, RunPuts;
      SortedEntriesNonEmpty(memtable.data);
      var entries := memtable.EntriesWithTimestamps();
      memtable := new MemTable(memtableMaxSize);
      var id := sstableCounter;
      sstableCounter := sstableCounter + 1;
      var copy := new MemTable(memtableMaxSize);
      copy := Refill(copy, entries);
      immutableMemtable := copy;
      flushQueue := flushQueue + [FlushMessage(entries, id)];
    }

    /** Waits for the flush in flight, a bounded number of turns. */
    method WaitForFlush() returns (ghost labels: seq<Label>)
      requires Valid()
      modifies this, wal, wal.dir
      ensures Valid() && memtable == old(memtable) && wal.current == old(wal.current)
      ensures immutableMemtable == old(immutableMemtable) || immutableMemtable == null
      ensures Idle(labels) && State(true) == RunLabels(old(State(true)), labels)
      ensures Polls(labels) <= 100 && (immutableMemtable != null ==> Polls(labels) == 100)
    {
      hide Wal.Valid, Complete, BackgroundWrite, SortedEntries;
      var waited := 0;
      labels := [];
      while immutableMemtable != null && waited < MAX_WAIT
        invariant Valid() && memtable == old(memtable) && wal.current == old(wal.current)
        invariant immutableMemtable == old(immutableMemtable) || immutableMemtable == null
        invariant Idle(labels) && State(true) == RunLabels(old(State(true)), labels)
        invariant waited <= MAX_WAIT && Polls(labels) <= MAX_WAIT
        invariant immutableMemtable != null ==> Polls(labels) == waited
        decreases MAX_WAIT - waited, immutableMemtable
      {
        IdleStep(old(State(true)), labels, DoPoll);
        CheckFlushCompletion(true);
        labels := labels + [DoPoll];
        if immutableMemtable != null {
          if * {
            IdleStep(old(State(true)), labels, DoWrite);
            BackgroundWriteStep(true);
            labels := labels + [DoWrite];
          }
          waited := waited + 1;
        }
      }
    }

    /** Waits, then freezes the memtable; if the frozen one is still there, flushes the active one
        instead. */
    method TriggerBackgroundFlush()
      requires Valid() && memtable.data != map[]
      modifies Repr()
      ensures Valid() && fresh(Repr() - old(Repr()))
      ensures WaitEnds(old(State(true)), State(false))
    {
      hide Wal.Valid, SortedEntries, Idle, Polls, RunLabels, FlushSync, Freeze;
      ghost var labels := WaitForFlush();
      assert memtable.data != map[] by {
        assert State(true).mem == old(State(true)).mem by {
          IdleMemtable(old(State(true)), labels);
        }
      }
      if immutableMemtable != null {
        FlushMemtableSync(true);
        assert State(false) == State(true).(waiting := false);
      } else {
        FreezeMemtable();
      }
      assert State(false) == EndWait(RunLabels(old(State(true)), labels));
    }

    /** Stores a logged put, and flushes a full memtable. */
    method StorePut(key: ByteString, value: ByteString, timestamp: U64)
      requires Valid()
      modifies Repr()
      ensures Valid() && fresh(Repr() - old(Repr()))
      ensures var p := StoreEntry(old(State(false)), Entry(key, value, timestamp));
              if p.waiting then WaitEnds(p, State(false)) else State(false) == p
    {
      hide Wal.Valid, FlushSync, WaitEnds, PutState, ExactSize;
      var isFull := memtable.Put(key, value, timestamp);
      assert memtable.data != map[] by {
        PutStores(old(memtable.State()), Entry(key, value, timestamp));
      }
      if isFull {
        if backgroundFlushEnabled {
          assert State(true) == StoreEntry(old(State(false)), Entry(key, value, timestamp));
          TriggerBackgroundFlush();
        } else {
          FlushMemtableSync(false);
          FlushSyncWaits(old(State(false)), Entry(key, value, timestamp));
        }
      }
    }

    /** Logs the put, registers finished tables, and stores it. */
    method Put(key: ByteString, value: ByteString, timestamp: U64) returns (r: Result<()>)
      requires Valid()
      modifies Repr()
      ensures Valid() && fresh(Repr() - old(Repr()))
      ensures PutRun(old(State(false)), Entry(key, value, timestamp), State(false))
      ensures r == if Accepted(Entry(key, value, timestamp)) then Ok(()) else Err(InvalidFormat)
    {
      hide Wal.Valid, Complete, StoreEntry, WaitEnds, WalLog.Append, Accepted;
      var appended := wal.AppendOperation(Records.Put, Entry(key, value, timestamp));
      if appended.Err? {
        LoggedWaits(old(State(false)), Entry(key, value, timestamp));
        return appended;
      }
      CheckFlushCompletion(false);
      StorePut(key, value, timestamp);
      return Ok(());
    }

    /** The active memtable, the frozen one, then the tables from newest to oldest. */
    method GetValue(key: ByteString) returns (r: Option<ByteString>)
      requires Valid()
      ensures r == EngineModel.Get(State(false), key)
    {
      hide Wal.Valid, Lookup;
      var found := memtable.Get(key);
      if found.Some? {
        return Some(found.value.value);
      }
      if immutableMemtable != null {
        found := immutableMemtable.Get(key);
        if found.Some? {
          return Some(found.value.value);
        }
      }
      var i := |sstables|;
      assert sstables[..i] == sstables;
      while i > 0
        invariant 0 <= i <= |sstables|
        invariant TablesGet(sstables, key) == TablesGet(sstables[..i], key)
      {
        assert sstables[..i][..i - 1] == sstables[..i - 1];
        i := i - 1;
        found := Lookup(sstables[i].entries, key);
        if found.Some? {
          return Some(found.value.value);
        }
      }
      return None;
    }

    /** Gathers every layer's range, sorts, and keeps the first entry of each key. */
    method ScanRange(start: ByteString, end: ByteString) returns (r: Result<seq<Entry>>)
      requires Valid()
      ensures r == EngineScan.Scan(State(false), start, end)
    {
      hide Wal.Valid, SortedEntries, Range;
      var results :- memtable.ScanWithTimestamps(start, end);
      if immutableMemtable != null {
        var more :- immutableMemtable.ScanWithTimestamps(start, end);
        results := results + more;
      } else {
        NoRange(start, end);
        assert results + [] == results;
      }
      ghost var memtables := results;
      for i := 0 to |sstables|
        invariant results == memtables + EngineScan.GatherTables(sstables[..i], start, end)
      {
        assert sstables[..i + 1][..i] == sstables[..i];
        Regroup(memtables, EngineScan.GatherTables(sstables[..i], start, end),
                Range(sstables[i].entries, start, end, true));
        results := results + Range(sstables[i].entries, start, end, true);
      }
      assert sstables[..|sstables|] == sstables;
      return Ok(EngineScan.Dedup(EngineScan.SortEntries(results)));
    }
  }

  lemma FlushSyncWaits(s: EngineState, e: Entry)
    ensures FlushSync(s.(mem := PutState(s.mem, e))).waiting == s.waiting
  {
    hide SortedEntries;
  }

  lemma LoggedWaits(s: EngineState, e: Entry)
    ensures Logged(s, e).waiting == s.waiting
  {
    hide WalLog.Append;
  }

  lemma NoRange(start: ByteString, end: ByteString)
    ensures Range([], start, end, false) == []
  {}

  lemma PutStores(m: MemState, e: Entry)
    ensures PutState(m, e).data != map[]
  {
    assert e.key in PutState(m, e).data;
  }

  lemma CompleteOneResults(s: EngineState)
    requires s.results != []
    ensures Complete(s) == Complete(CompleteOne(s)) && |CompleteOne(s).results| == |s.results| - 1
  {}

  lemma RecoverValid(wal: Wal)
    requires wal.Valid()
    ensures RecoverFiles(wal.crc, wal.dir.files) == Ok(EntriesOf(DiskRecords(wal.log.files)))
  {
    RecoverStored(wal.crc, wal.dir.files, wal.log.files);
  }

  /** Puts the entries into an empty memtable one by one. */
  method Refill(table: MemTable, entries: seq<Entry>) returns (filled: MemTable)
    requires table.Valid() && table.State() == EmptyState(table.maxSize)
    modifies table
    ensures filled == table && filled.Valid()
    ensures filled.State() == RunPuts(EmptyState(table.maxSize), entries)
  {
    hide PutState;
    for i := 0 to |entries|
      invariant table.Valid() && table.State() == RunPuts(EmptyState(table.maxSize), entries[..i])
    {
      assert entries[..i + 1][..i] == entries[..i];
      var full := table.Put(entries[i].key, entries[i].value, entries[i].timestamp);
    }
    assert entries[..|entries|] == entries;
    filled := table;
  }
}
