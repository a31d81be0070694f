/** The storage engine as a state machine (src/storage_engine.rs): an active memtable, an optional
    frozen one, SSTables in list order, the log, and the flush thread as a step of its own. */
module EngineModel {
  import opened Bytes
  import opened Results
  import opened Entries
  import opened Numbers
  import opened Records
  import opened WalLog
  import opened Memtables
  import opened Tables
  import opened Merges
  import opened CompactionReads

  datatype FlushMessage = FlushMessage(entries: seq<Entry>, id: nat)

  datatype EngineState = EngineState(
    log: LogState,
    mem: MemState,
    frozen: Option<MemState>,
    tables: seq<Table>,
    disk: map<nat, seq<Entry>>,    // SSTable files by number
    queue: seq<FlushMessage>,      // sent to the flush thread
    results: seq<nat>,             // files written, not yet registered
    counter: nat,
    memMax: nat,
    background: bool,
    waiting: bool)                 // inside a put whose memtable is full, in background mode

  // ---------- reading ----------

  function FrozenMap(s: EngineState): Contents {
    match s.frozen case Some(f) => f.data case None => map[]
  }

  /** Everything a reader can see: tables, then the frozen memtable, then the active one. */
  function View(s: EngineState): Contents {
    TablesMap(s.tables) + FrozenMap(s) + s.mem.data
  }

  function ValueOf(found: Option<Version>): Option<ByteString> {
    match found case Some(v) => Some(v.value) case None => None
  }

  function Get(s: EngineState, key: ByteString): Option<ByteString> {
    if key in s.mem.data then Some(s.mem.data[key].value)
    else if s.frozen.Some? && key in s.frozen.value.data then Some(s.frozen.value.data[key].value)
    else TablesGet(s.tables, key)
  }

  /** Layered lookup is one lookup in the combined view. */
  lemma GetIsView(s: EngineState, key: ByteString)
    requires TablesSorted(s.tables)
    ensures Get(s, key) == Read(View(s), key)
  {
    TablesGetIsMap(s.tables, key);
  }

  // ---------- steps ----------

  function NewEngine(memMax: nat, capacity: nat, background: bool): EngineState {
    EngineState(OpenLog(map[], capacity), EmptyState(memMax), None, [], map[], [], [], 1, memMax, background, false)
  }

  function CleanLog(log: LogState): LogState {
    Cleanup(MarkFlushed(log), 0)
  }

  /** Registers one written table, drops the frozen memtable and cleans the log. */
  function CompleteOne(s: EngineState): EngineState
    requires s.results != []
  {
    var id := s.results[0];
    var rest := s.(results := s.results[1..]);
    if id !in s.disk then rest  // the table does not open
    else rest.(tables := s.tables + [Table(id, s.disk[id])], frozen := None, log := CleanLog(s.log))
  }

  /** `check_flush_completion`: drains every result. */
  function Complete(s: EngineState): EngineState
    decreases |s.results|
  {
    if s.results == [] then s else Complete(CompleteOne(s))
  }

  function FlushSync(s: EngineState): EngineState {
    if s.mem.data == map[] then s
    else
      WithNewTable(s, SortedEntries(s.mem.data)).(mem := EmptyState(s.memMax), log := CleanLog(s.log))
  }

  /** A file written under the next number and registered. */
  function WithNewTable(s: EngineState, entries: seq<Entry>): EngineState {
    s.(disk := s.disk[s.counter := entries], tables := s.tables + [Table(s.counter, entries)], counter := s.counter + 1)
  }

  /** `put`: log first, then completions, then the memtable; a full memtable is flushed at once, or
      the put goes on to wait for the flush thread. A rejected record ends the put. */
  function PutEntry(s: EngineState, e: Entry): EngineState {
    var logged := Logged(s, e);
    if !Accepted(e) then logged else StoreEntry(Complete(logged), e)
  }

  function Logged(s: EngineState, e: Entry): EngineState {
    s.(log := Append(s.log, LogRecord(Records.Put, e)))
  }

  function StoreEntry(s: EngineState, e: Entry): EngineState {
    var stored := s.(mem := PutState(s.mem, e));
    if !stored.mem.Full() then stored
    else if s.background then stored.(waiting := true)
    else FlushSync(stored)
  }

  function IdSet(inputs: seq<nat>): set<nat> {
    set id | id in inputs
  }

  /** The listed files are scanned and merged into `out`: each is a registered table or a finished file
      waiting to be registered, and the merge does not abort. */
  ghost predicate CanCompact(s: EngineState, inputs: seq<nat>, out: seq<Entry>) {
    && (forall id :: id in inputs ==> id in s.disk && (Table(id, s.disk[id]) in s.tables || id in s.results))
    && Aligned(ScansOf(TablesIn(s.disk, inputs)))
    && IsMerge(Inputs(ScansOf(TablesIn(s.disk, inputs))), out)
  }

  /** `compact_sstables_sync`: the output takes the next number and the end of the list, and the
      inputs' files are deleted. */
  function Compact(s: EngineState, inputs: seq<nat>, out: seq<Entry>): EngineState {
    var ids := IdSet(inputs);
    s.(tables := Compacted(s.tables, ids, Table(s.counter, out)), disk := (s.disk - ids)[s.counter := out],
       counter := s.counter + 1)
  }

  /** No finished file that waits to be registered is among the inputs. */
  ghost predicate OnlyRegistered(s: EngineState, inputs: seq<nat>) {
    forall id :: id in inputs ==> id !in s.results
  }

  /** A put that finds tables to compact once it is logged and finished tables are registered. */
  function CompactingPut(s: EngineState, e: Entry, inputs: seq<nat>, out: seq<Entry>): EngineState {
    StoreEntry(Compact(Complete(Logged(s, e)), inputs, out), e)
  }

  /** Freezes the memtable as a fresh copy and hands its entries to the flush thread. */
  function Freeze(s: EngineState): EngineState {
    var entries := SortedEntries(s.mem.data);
    s.(frozen := Some(RunPuts(EmptyState(s.memMax), entries)), mem := EmptyState(s.memMax),
       queue := s.queue + [FlushMessage(entries, s.counter)], counter := s.counter + 1, waiting := false)
  }

  /** The wait ran out: the active memtable is flushed while the frozen one is still there. */
  function Fallback(s: EngineState): EngineState {
    FlushSync(s).(waiting := false)
  }

  /** The flush thread writes one table file and reports it. */
  function BackgroundWrite(s: EngineState): EngineState {
    if s.queue == [] then s
    else
      var m := s.queue[0];
      s.(queue := s.queue[1..], results := s.results + [m.id],
         disk := if m.entries == [] then s.disk else s.disk[m.id := m.entries])
  }

  /** An engine started over a log and the table files: the log is replayed into the memtable and
      the tables are registered in number order. */
  function Recovered(log: LogState, disk: map<nat, seq<Entry>>, memMax: nat, background: bool): EngineState {
    EngineState(log, RunPuts(EmptyState(memMax), EntriesOf(DiskRecords(log.files))), None, TablesOnDisk(disk), disk,
                [], [], Latest(disk.Keys) + 1, memMax, background, false)
  }

  /** A restart. A clean close flushes the log; a crash loses its buffer. */
  function Reopen(s: EngineState, clean: bool, memMax: nat, capacity: nat, background: bool): EngineState {
    Recovered(OpenLog((if clean then Flush(s.log) else s.log).files, capacity), s.disk, memMax, background)
  }

  datatype Label =
    | DoPut(entry: Entry)
    | DoCompactingPut(entry: Entry, inputs: seq<nat>, out: seq<Entry>)
    | DoCompact(inputs: seq<nat>, out: seq<Entry>)
    | DoPoll
    | DoWrite
    | DoFreeze
    | DoFallback
    | DoLogFlush
    | DoLogLimit(limit: nat)
    | DoReopen(clean: bool, memMax: nat, capacity: nat, background: bool)

  ghost predicate Enabled(s: EngineState, l: Label) {
    match l
    case DoPut(_) => !s.waiting
    case DoCompactingPut(e, inputs, out) => !s.waiting && Accepted(e) && CanCompact(Complete(Logged(s, e)), inputs, out)
    case DoCompact(inputs, out) => !s.waiting && CanCompact(s, inputs, out)
    case DoFreeze => s.waiting && s.frozen.None?
    case DoFallback => s.waiting && s.frozen.Some?
    case _ => true
  }

  function Next(s: EngineState, l: Label): EngineState {
    match l
    case DoPut(e) => PutEntry(s, e)
    case DoCompactingPut(e, inputs, out) => CompactingPut(s, e, inputs, out)
    case DoCompact(inputs, out) => Compact(s, inputs, out)
    case DoPoll => Complete(s)
    case DoWrite => BackgroundWrite(s)
    case DoFreeze => Freeze(s)
    case DoFallback => Fallback(s)
    case DoLogFlush => s.(log := Flush(s.log))
    case DoLogLimit(n) => s.(log := s.log.(limit := n))
    case DoReopen(clean, memMax, capacity, background) => Reopen(s, clean, memMax, capacity, background)
  }

  /** The accepted puts, in order. */
  function NextHistory(history: seq<Entry>, l: Label): seq<Entry> {
    if (l.DoPut? && Accepted(l.entry)) || l.DoCompactingPut? then history + [l.entry] else history
  }

  // ---------- structure ----------

  /** A flush is in flight exactly while a frozen memtable is present, and carries its contents. */
  ghost predicate InFlight(s: EngineState) {
    && |s.queue| + |s.results| == (if s.frozen.Some? then 1 else 0)
    && (s.frozen.Some? ==> s.background && s.frozen.value.data != map[])
    && (s.queue != [] ==> s.queue[0].entries == SortedEntries(s.frozen.value.data)
                          && s.queue[0].id < s.counter && s.queue[0].id !in s.disk)
    && (s.results != [] ==> s.results[0] in s.disk && s.disk[s.results[0]] == SortedEntries(s.frozen.value.data))
  }

  /** Every registered table is a file on disk with the same entries. */
  ghost predicate Registered(tables: seq<Table>, disk: map<nat, seq<Entry>>) {
    forall i :: 0 <= i < |tables| ==> tables[i].id in disk && disk[tables[i].id] == tables[i].entries
  }

  ghost predicate FilesSorted(disk: map<nat, seq<Entry>>, counter: nat) {
    forall id :: id in disk ==> id < counter && Sorted(disk[id])
  }

  ghost predicate Structure(s: EngineState) {
    && InFlight(s)
    && TablesSorted(s.tables)
    && Registered(s.tables, s.disk)
    && FilesSorted(s.disk, s.counter)
    && (s.waiting ==> s.background && s.mem.data != map[])
  }

  lemma SortedEntriesNonEmpty(m: Contents)
    ensures SortedEntries(m) == [] <==> m == map[]
  {
    SortedEntriesCorrect(m);
  }

  /** With at most one result pending, draining is registering that one table. */
  lemma CompleteIsOne(s: EngineState)
    requires Structure(s)
    ensures Complete(s) == if s.results == [] then s else CompleteOne(s)
  {
    if s.results != [] {
      assert CompleteOne(s).results == [];
    }
  }

  /** Draining registers every reported file, in order; one or more take the frozen memtable away and leave
      of the log only the active segment. */
  lemma {:induction false} CompleteExactly(s: EngineState)
    requires forall id :: id in s.results ==> id in s.disk
    ensures Complete(s) ==
            if s.results == [] then s
            else s.(tables := s.tables + TablesIn(s.disk, s.results), results := [], frozen := None,
                    log := CleanLog(s.log))
    ensures forall n :: n in CleanLog(s.log).files <==> n in s.log.files && n >= s.log.active
    decreases |s.results|
  {
    if s.results != [] {
      var c := CompleteOne(s);
      CompleteExactly(c);
      var first, rest := Table(s.results[0], s.disk[s.results[0]]), TablesIn(s.disk, c.results);
      assert TablesIn(s.disk, s.results) == [first] + rest;
      Regroup(s.tables, [first], rest);
      assert CleanLog(CleanLog(s.log)) == CleanLog(s.log);
    }
  }

  /** When nothing waits to be registered, an accepted put is stored, and flushed at once or put to wait
      exactly when the size estimate has reached the limit. */
  lemma PutFlushesIff(s: EngineState, e: Entry)
    requires Accepted(e) && s.results == [] && !s.waiting
    ensures var p, m := PutEntry(s, e), PutState(s.mem, e);
            if m.sizeBytes < m.maxSize then p == s.(log := Append(s.log, LogRecord(Records.Put, e)), mem := m)
            else if s.background then
              p == s.(log := Append(s.log, LogRecord(Records.Put, e)), mem := m, waiting := true)
            else
              var entries := SortedEntries(m.data);
              && p.mem.data == map[] && p.mem.sizeBytes == 0
              && p.tables == s.tables + [Table(s.counter, entries)] && p.disk == s.disk[s.counter := entries]
              && p.counter == s.counter + 1 && p.frozen == s.frozen
              && forall n :: n in p.log.files ==> n >= p.log.active
  {
    hide Append, SortedEntries;
    assert e.key in PutState(s.mem, e).data;
  }

  /** A restart numbers new tables after the largest number found. */
  lemma RecoveredNumbers(log: LogState, disk: map<nat, seq<Entry>>, memMax: nat, background: bool)
    ensures var r := Recovered(log, disk, memMax, background);
            && (forall id :: id in disk ==> id < r.counter)
            && (if disk == map[] then r.counter == 1 else r.counter - 1 in disk)
            && (forall i, j :: 0 <= i < j < |r.tables| ==> r.tables[i].id < r.tables[j].id)
            && (forall t :: t in r.tables ==> t.id in disk && t.entries == disk[t.id])
            && forall id :: id in disk ==> Table(id, disk[id]) in r.tables
  {
    hide RunPuts, EntriesOf, DiskRecords;
    var order := Ascending(disk.Keys);
    AscendingIncreasing(disk.Keys);
    assert disk != map[] ==> disk.Keys != {};
    var tables := TablesOnDisk(disk);
    forall id | id in disk ensures Table(id, disk[id]) in tables {
      var i :| 0 <= i < |order| && order[i] == id;
      assert tables[i] == Table(id, disk[id]);
    }
  }

  lemma CompleteKeeps(s: EngineState)
    requires Structure(s)
    ensures Structure(Complete(s)) && View(Complete(s)) == View(s)
    ensures Complete(s).mem == s.mem && Complete(s).waiting == s.waiting && Complete(s).background == s.background
  {
    hide SortedEntries, Replay, TablesMap, Sorted, CleanLog, Complete, CompleteOne;
    CompleteIsOne(s);
    if s.results != [] {
      RegisterKeeps(s);
      RegisterView(s);
    }
  }

  /** Registering the file of the flush in flight. */
  lemma RegisterKeeps(s: EngineState)
    requires Structure(s) && s.results != []
    ensures var c := CompleteOne(s);
            && Structure(c) && c.mem == s.mem && c.waiting == s.waiting && c.background == s.background
  {
    hide SortedEntries, Sorted, CleanLog;
  }

  lemma RegisterView(s: EngineState)
    requires Structure(s) && s.results != []
    ensures View(CompleteOne(s)) == View(s)
  {
    hide SortedEntries, Replay, TablesMap, Sorted, CleanLog, Registered, FilesSorted, TablesSorted;
    var id := s.results[0];
    SortedEntriesCorrect(FrozenMap(s));
    TablesMapAppend(s.tables, Table(id, s.disk[id]));
    UnderNothing(TablesMap(s.tables), FrozenMap(s), s.mem.data);
  }

  lemma UnderNothing(tables: Contents, frozen: Contents, mem: Contents)
    ensures (tables + frozen) + map[] + mem == tables + frozen + mem
  {}

  lemma NewFileKeeps(tables: seq<Table>, disk: map<nat, seq<Entry>>, id: nat, entries: seq<Entry>)
    requires TablesSorted(tables) && Registered(tables, disk) && FilesSorted(disk, id) && Sorted(entries)
    ensures Registered(tables, disk[id := entries])
    ensures Registered(tables + [Table(id, entries)], disk[id := entries])
    ensures TablesSorted(tables + [Table(id, entries)])
    ensures FilesSorted(disk[id := entries], id + 1)
  {
    hide Sorted;
  }

  lemma FlushSyncKeeps(s: EngineState)
    requires Structure(s)
    ensures Structure(FlushSync(s).(waiting := false))
    ensures TablesMap(FlushSync(s).tables) == TablesMap(s.tables) + s.mem.data
    ensures FlushSync(s).mem.data == map[] && FrozenMap(FlushSync(s)) == FrozenMap(s)
    ensures FlushSync(s).waiting == s.waiting
  {
    hide TablesMap, CleanLog, Registered, FilesSorted, TablesSorted, InFlight, WithNewTable, SortedEntries, Sorted,
      Replay, Structure;
    if s.mem.data == map[] {
      NotWaiting(s);
    } else {
      SortedEntriesCorrect(s.mem.data);
      NewTableKeeps(s, SortedEntries(s.mem.data));
      FlushedStructure(s, WithNewTable(s, SortedEntries(s.mem.data)));
    }
  }

  lemma NotWaiting(s: EngineState)
    requires Structure(s)
    ensures Structure(s.(waiting := false))
  {
    hide Sorted, SortedEntries;
  }

  /** Emptying the memtable and cleaning the log do not disturb the tables. */
  lemma FlushedStructure(s: EngineState, t: EngineState)
    requires t == s.(disk := t.disk, tables := t.tables, counter := t.counter)
    requires InFlight(t) && TablesSorted(t.tables) && Registered(t.tables, t.disk) && FilesSorted(t.disk, t.counter)
    ensures Structure(t.(mem := EmptyState(s.memMax), log := CleanLog(s.log), waiting := false))
  {
    hide CleanLog, Registered, FilesSorted, TablesSorted;
  }

  lemma NewTableKeeps(s: EngineState, entries: seq<Entry>)
    requires Structure(s) && Sorted(entries)
    ensures var t := WithNewTable(s, entries);
            && t == s.(disk := t.disk, tables := t.tables, counter := t.counter)
            && InFlight(t) && TablesSorted(t.tables) && Registered(t.tables, t.disk) && FilesSorted(t.disk, t.counter)
            && TablesMap(t.tables) == TablesMap(s.tables) + Replay(entries)
  {
    hide Sorted, TablesMap, Registered, FilesSorted, TablesSorted, InFlight;
    NewFileKeeps(s.tables, s.disk, s.counter, entries);
    TablesMapAppend(s.tables, Table(s.counter, entries));
    InFlightNewFile(s, WithNewTable(s, entries), entries);
  }

  ghost predicate SameFlight(s: EngineState, t: EngineState) {
    t.queue == s.queue && t.results == s.results && t.frozen == s.frozen && t.background == s.background
  }

  lemma InFlightSame(s: EngineState, t: EngineState)
    requires InFlight(s) && SameFlight(s, t) && t.disk == s.disk && t.counter == s.counter
    ensures InFlight(t)
  {}

  /** A file under the next number does not disturb the flush in flight. */
  lemma InFlightNewFile(s: EngineState, t: EngineState, entries: seq<Entry>)
    requires InFlight(s) && FilesSorted(s.disk, s.counter)
    requires SameFlight(s, t) && t.disk == s.disk[s.counter := entries] && t.counter == s.counter + 1
    ensures InFlight(t)
  {
    hide SortedEntries, Sorted;
  }

  lemma PutKeeps(s: EngineState, e: Entry)
    requires Structure(s) && !s.waiting
    ensures Structure(PutEntry(s, e))
    ensures !Accepted(e) ==> PutEntry(s, e) == s.(log := Append(s.log, LogRecord(Records.Put, e)))
    ensures SameReads(View(PutEntry(s, e)), if Accepted(e) then View(s)[e.key := e.Ver()] else View(s))
  {
    hide Structure, View, Complete, StoreEntry, Accepted, Logged;
    LoggedKeeps(s, e);
    if Accepted(e) {
      CompleteKeeps(Logged(s, e));
      StoreKeeps(Complete(Logged(s, e)), e);
    }
  }

  lemma LoggedKeeps(s: EngineState, e: Entry)
    requires Structure(s)
    ensures Structure(Logged(s, e)) && View(Logged(s, e)) == View(s) && Logged(s, e).waiting == s.waiting
    ensures Logged(s, e) == s.(log := Append(s.log, LogRecord(Records.Put, e)))
  {
    LogOnly(s, Append(s.log, LogRecord(Records.Put, e)));
  }

  lemma StoreKeeps(s: EngineState, e: Entry)
    requires Structure(s) && !s.waiting
    ensures Structure(StoreEntry(s, e))
    ensures SameReads(View(StoreEntry(s, e)), View(s)[e.key := e.Ver()])
  {
    hide Replay, TablesMap, FlushSync, InFlight, TablesSorted, Registered, FilesSorted;
    var stored := s.(mem := PutState(s.mem, e));
    InFlightSame(s, stored);
    InFlightSame(s, stored.(waiting := true));
    assert View(stored) == View(s)[e.key := e.Ver()];
    assert e.key in stored.mem.data;
    if stored.mem.Full() && !s.background {
      FlushSyncKeeps(stored);
      assert FlushSync(stored).(waiting := false) == FlushSync(stored);
      NoFrozenInSync(s);
    }
  }

  lemma NoFrozenInSync(s: EngineState)
    requires InFlight(s) && !s.background
    ensures FrozenMap(s) == map[] && s.results == []
  {}

  /** The flush in flight survives a compaction exactly when its finished file is not an input: the file
      is deleted with the inputs, so it cannot be registered and the frozen memtable stays for good. */
  lemma CompactKeepsFlightIff(s: EngineState, inputs: seq<nat>, out: seq<Entry>)
    requires Structure(s) && CanCompact(s, inputs, out)
    ensures Structure(Compact(s, inputs, out)) <==> OnlyRegistered(s, inputs)
    ensures !OnlyRegistered(s, inputs) ==>
              var c := Complete(Compact(s, inputs, out));
              c.results == [] && c.queue == [] && c.frozen == s.frozen && c.frozen.Some?
  {
    if OnlyRegistered(s, inputs) {
      CompactKeepsStructure(s, inputs, out);
    } else {
      FlightBroken(s, inputs, out);
    }
  }

  lemma FlightBroken(s: EngineState, inputs: seq<nat>, out: seq<Entry>)
    requires Structure(s) && CanCompact(s, inputs, out) && !OnlyRegistered(s, inputs)
    ensures !Structure(Compact(s, inputs, out))
    ensures var c := Complete(Compact(s, inputs, out));
            c.results == [] && c.queue == [] && c.frozen == s.frozen && c.frozen.Some?
  {
    hide SortedEntries, Sorted, IsMerge, Aligned, Compacted;
    var c := Compact(s, inputs, out);
    var id :| id in inputs && id in s.results;
    assert id == s.results[0] && id in IdSet(inputs) && id < s.counter;
    assert c.results == s.results && id !in c.disk;
    assert CompleteOne(c) == c.(results := []);
  }

  /** A compaction of registered tables keeps the structure, and if it is safe also every read. */
  lemma CompactKeeps(s: EngineState, inputs: seq<nat>, out: seq<Entry>)
    requires Structure(s) && CanCompact(s, inputs, out) && OnlyRegistered(s, inputs)
    ensures Structure(Compact(s, inputs, out))
    ensures Compact(s, inputs, out).mem == s.mem && Compact(s, inputs, out).waiting == s.waiting
    ensures Compact(s, inputs, out).background == s.background
    ensures CompactionSafe(s.tables, IdSet(inputs)) ==> SameReads(View(Compact(s, inputs, out)), View(s))
  {
    hide IsMerge, TablesMap, Replay, Sorted, Aligned, CompactionSafe, Inputs, ScansOf, Kept;
    CompactKeepsStructure(s, inputs, out);
    var files, ids := TablesIn(s.disk, inputs), IdSet(inputs);
    InputsRegistered(s, inputs);
    if CompactionSafe(s.tables, ids) {
      TablesCompactionIff(s.tables, files, s.counter);
      assert IsMerge(Inputs(ScansOf(files)), out);
      assert SameReads(TablesMap(Compacted(s.tables, ids, Table(s.counter, out))), TablesMap(s.tables));
      ReadsUnder(TablesMap(Compact(s, inputs, out).tables), TablesMap(s.tables), FrozenMap(s), s.mem.data);
    }
  }

  /** Layers on top keep equal reads equal. */
  lemma ReadsUnder(a: Contents, b: Contents, frozen: Contents, mem: Contents)
    requires SameReads(a, b)
    ensures SameReads(a + frozen + mem, b + frozen + mem)
  {
    forall key ensures Read(a + frozen + mem, key) == Read(b + frozen + mem, key) {
      assert Read(a, key) == Read(b, key);
    }
  }

  lemma InputsRegistered(s: EngineState, inputs: seq<nat>)
    requires Structure(s) && forall id :: id in inputs ==> id in s.disk && Table(id, s.disk[id]) in s.tables
    ensures AreTables(TablesIn(s.disk, inputs), s.tables)
    ensures NumbersOf(TablesIn(s.disk, inputs)) == IdSet(inputs)
  {
    hide Sorted, SortedEntries, InFlight;
    var files := TablesIn(s.disk, inputs);
    forall id | id in inputs ensures Table(id, s.disk[id]) in files {
      var i :| 0 <= i < |inputs| && inputs[i] == id;
      assert files[i] == Table(id, s.disk[id]);
    }
  }

  lemma CompactKeepsStructure(s: EngineState, inputs: seq<nat>, out: seq<Entry>)
    requires Structure(s) && CanCompact(s, inputs, out) && OnlyRegistered(s, inputs)
    ensures Structure(Compact(s, inputs, out))
  {
    hide Sorted, SortedEntries, IsMerge, Aligned, Inputs, ScansOf, Kept;
    var c, ids := Compact(s, inputs, out), IdSet(inputs);
    var kept := Kept(s.tables, ids);
    MergeSorted(Inputs(ScansOf(TablesIn(s.disk, inputs))), out);
    forall i | 0 <= i < |kept| ensures kept[i] in s.tables && kept[i].id !in ids {
      KeptMember(s.tables, ids, i);
    }
    assert c.tables == kept + [Table(s.counter, out)];
    forall i | 0 <= i < |c.tables|
      ensures c.tables[i].id in c.disk && c.disk[c.tables[i].id] == c.tables[i].entries && Sorted(c.tables[i].entries)
    {
      if i < |kept| {
        assert c.tables[i] == kept[i];
        var k :| 0 <= k < |s.tables| && s.tables[k] == kept[i];
      }
    }
    assert InFlight(c);
  }

  lemma MergeSorted(lists: seq<seq<Entry>>, out: seq<Entry>)
    requires IsMerge(lists, out)
    ensures Sorted(out)
  {}

  lemma FreezeKeeps(s: EngineState)
    requires Structure(s) && Enabled(s, DoFreeze)
    ensures Structure(Freeze(s)) && View(Freeze(s)) == View(s)
    ensures FrozenMap(Freeze(s)) == s.mem.data && Freeze(s).mem.data == map[] && !Freeze(s).waiting
  {
    hide SortedEntries, Replay, TablesMap, Sorted, RunPuts;
    RefillRestores(s.mem.data, s.memMax);
  }

  lemma WriteKeeps(s: EngineState)
    requires Structure(s)
    ensures Structure(BackgroundWrite(s)) && View(BackgroundWrite(s)) == View(s)
  {
    if s.queue != [] {
      SortedEntriesCorrect(FrozenMap(s));
      SortedEntriesNonEmpty(FrozenMap(s));
    }
  }

  lemma LogOnly(s: EngineState, log: LogState)
    requires Structure(s)
    ensures Structure(s.(log := log)) && View(s.(log := log)) == View(s)
  {}
}
