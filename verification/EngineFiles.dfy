/** The engine over real bytes: tables read through their files, and a whole life of the engine
    from an empty directory through puts, a restart, and reads. */
module EngineFiles {
  import opened Bytes
  import opened Results
  import opened Entries
  import opened Numbers
  import opened Records
  import opened WalLog
  import opened Wals
  import opened Memtables
  import opened Tables
  import opened EngineModel
  import opened EngineRuns
  import opened Durability
  import opened DurableRuns
  import opened Engines
  import EngineScan
  import opened TableLayout
  import opened SstReader
  import opened SstWriter
  import opened TableSizes
  import opened Blocks
  import opened Blooms
  import opened Formats

  const DEFAULT_BLOCK_SIZE: nat := 16 * 1024

  /** Each reader answers for the entries of its table. */
  ghost predicate AllAnswer(readers: seq<SsTableReader>, tables: seq<Table>) {
    |readers| == |tables| && forall i :: 0 <= i < |readers| ==> Answers(readers[i], tables[i].entries)
  }

  /** Reading through table readers, newest first: a corrupted table is skipped, any other error ends
      the read. */
  function ReadersGet(readers: seq<SsTableReader>, key: ByteString): Result<Option<ByteString>> {
    if readers == [] then Ok(None)
    else
      match readers[|readers| - 1].Get(key)
      case Ok(Some(v)) => Ok(Some(v.value))
      case Ok(None) => ReadersGet(readers[..|readers| - 1], key)
      case Err(e) => if e == CorruptedData then ReadersGet(readers[..|readers| - 1], key) else Err(e)
  }

  /** The table's answer ends the read: it is a version, or an error other than corruption. */
  predicate Decisive(reader: SsTableReader, key: ByteString) {
    match reader.Get(key)
    case Ok(found) => found.Some?
    case Err(e) => e != CorruptedData
  }

  predicate Gives(reader: SsTableReader, key: ByteString, v: ByteString) {
    var answer := reader.Get(key);
    answer.Ok? && answer.value.Some? && answer.value.value.value == v
  }

  /** Reader `i` is decisive and no newer one is. */
  predicate FirstDecisive(readers: seq<SsTableReader>, key: ByteString, i: nat) {
    && i < |readers| && Decisive(readers[i], key)
    && forall j :: i < j < |readers| ==> !Decisive(readers[j], key)
  }

  /** The newest decisive reader gives the answer; without one the key is absent. */
  lemma {:induction false} FirstDecisiveAnswers(readers: seq<SsTableReader>, key: ByteString) returns (i: int)
    ensures i >= 0 ==> FirstDecisive(readers, key, i)
    ensures i >= 0 ==> match readers[i].Get(key)
                       case Ok(found) => found.Some? && ReadersGet(readers, key) == Ok(Some(found.value.value))
                       case Err(e) => ReadersGet(readers, key) == Err(e)
    ensures i < 0 ==> forall j :: 0 <= j < |readers| ==> !Decisive(readers[j], key)
    ensures i < 0 ==> ReadersGet(readers, key) == Ok(None)
  {
    hide SsTableReader.Get;
    i := |readers| - 1;
    if readers != [] && !Decisive(readers[i], key) {
      i := FirstDecisiveAnswers(readers[..i], key);
    }
  }

  lemma ReadersGetExactly(readers: seq<SsTableReader>, key: ByteString)
    ensures var r := ReadersGet(readers, key);
            && (forall e :: r == Err(e) <==>
                  exists i: nat :: FirstDecisive(readers, key, i) && readers[i].Get(key) == Err(e))
            && (forall v :: r == Ok(Some(v)) <==>
                  exists i: nat :: FirstDecisive(readers, key, i) && Gives(readers[i], key, v))
            && (r == Ok(None) <==> forall i :: 0 <= i < |readers| ==> !Decisive(readers[i], key))
  {
    hide SsTableReader.Get, ReadersGet;
    var i := FirstDecisiveAnswers(readers, key);
    assert forall j: nat, k: nat :: FirstDecisive(readers, key, j) && FirstDecisive(readers, key, k) ==> j == k;
  }

  /** The read through the files: the newest decisive reader gives the value or the error, and without
      one the key is absent. */
  method GetFromReaders(readers: seq<SsTableReader>, key: ByteString) returns (r: Result<Option<ByteString>>)
    ensures r == ReadersGet(readers, key)
    ensures forall e :: r == Err(e) <==>
              exists i: nat :: FirstDecisive(readers, key, i) && readers[i].Get(key) == Err(e)
    ensures forall v :: r == Ok(Some(v)) <==>
              exists i: nat :: FirstDecisive(readers, key, i) && Gives(readers[i], key, v)
    ensures r == Ok(None) <==> forall i :: 0 <= i < |readers| ==> !Decisive(readers[i], key)
  {
    hide SsTableReader.Get, Decisive, Gives;
    ReadersGetExactly(readers, key);
    var i := |readers|;
    assert readers[..i] == readers;
    while i > 0
      invariant 0 <= i <= |readers|
      invariant ReadersGet(readers, key) == ReadersGet(readers[..i], key)
    {
      assert readers[..i][..i - 1] == readers[..i - 1];
      i := i - 1;
      var found := readers[i].Get(key);
      match found {
        case Ok(Some(v)) => return Ok(Some(v.value));
        case Ok(None) =>
        case Err(CorruptedData) =>
        case Err(e) => return Err(e);
      }
    }
    return Ok(None);
  }

  /** Readers that answer for their tables answer together as the tables do. */
  lemma {:induction false} ReadersAnswer(readers: seq<SsTableReader>, tables: seq<Table>, key: ByteString)
    requires AllAnswer(readers, tables)
    ensures ReadersGet(readers, key) == Ok(TablesGet(tables, key))
  {
    hide SsTableReader.Get, Lookup;
    if readers != [] {
      var n := |readers| - 1;
      ReadersAnswer(readers[..n], tables[..n], key);
      assert Answers(readers[n], tables[n].entries);
    }
  }

  /** A table that is corrupted for the key is read as if it were not there. */
  lemma {:induction false} CorruptedTableSkipped(readers: seq<SsTableReader>, i: nat, key: ByteString)
    requires i < |readers| && readers[i].Get(key) == Err(CorruptedData)
    ensures ReadersGet(readers, key) == ReadersGet(readers[..i] + readers[i + 1..], key)
  {
    hide SsTableReader.Get;
    var n := |readers| - 1;
    if i < n {
      CorruptedTableSkipped(readers[..n], i, key);
      var without := readers[..i] + readers[i + 1..];
      assert without[..n - 1] == readers[..n][..i] + readers[..n][i + 1..];
    } else {
      assert readers[..i] + readers[i + 1..] == readers[..n];
    }
  }

  /** When no newer table decides, a table whose candidate block lies past the end of its file fails the
      read, and one whose block is damaged leaves it to the older tables. */
  lemma DamagedFileRead(readers: seq<SsTableReader>, i: nat, key: ByteString, b: nat)
    requires i < |readers| && forall j :: i < j < |readers| ==> !Decisive(readers[j], key)
    requires var r := readers[i];
             && r.bloomFilter.numBits > 0 && Contains(r.hash, r.bloomFilter, key)
             && IndexSorted(r.index) && IsCandidate(r, key, b)
    ensures var r := readers[i];
            var from, upTo := r.index[b].offset, r.index[b].offset + r.index[b].size;
            if upTo > |r.file| then ReadersGet(readers, key) == Err(Io)
            else r.codec.decompress(r.file[from..upTo]) == None ==>
                   ReadersGet(readers, key) == ReadersGet(readers[..i], key)
  {
    hide SsTableReader.Get, SsTableReader.ReadBlock, ReadersGet, Contains, IndexSorted, DecodeEntries;
    var r := readers[i];
    BlockErrors(r, b, Io);
    BlockErrors(r, b, CorruptedData);
    GetExactly(r, key, b);
    if r.index[b].offset + r.index[b].size > |r.file| {
      assert FirstDecisive(readers, key, i);
      ReadersGetExactly(readers, key);
    } else if r.Get(key) == Err(CorruptedData) {
      UndecidedSkipped(readers, i, key);
    }
  }

  /** Tables that do not decide leave the read to the older ones. */
  lemma {:induction false} UndecidedSkipped(readers: seq<SsTableReader>, i: nat, key: ByteString)
    requires i <= |readers| && forall j :: i <= j < |readers| ==> !Decisive(readers[j], key)
    ensures ReadersGet(readers, key) == ReadersGet(readers[..i], key)
  {
    hide SsTableReader.Get;
    var n := |readers| - 1;
    if i <= n {
      assert !Decisive(readers[n], key);
      UndecidedSkipped(readers[..n], i, key);
      assert readers[..n][..i] == readers[..i];
    } else {
      assert readers[..i] == readers;
    }
  }

  // ---------- scans through the readers ----------

  function ScanOf(reader: SsTableReader, start: ByteString, end: ByteString): Result<seq<Entry>> {
    reader.ScanFrom(reader.StartBlock(start), start, end)
  }

  /** What every reader's scan adds, oldest first; the first error ends the scan. */
  function ReadersGather(readers: seq<SsTableReader>, start: ByteString, end: ByteString): Result<seq<Entry>> {
    if readers == [] then Ok([])
    else
      match ReadersGather(readers[..|readers| - 1], start, end)
      case Ok(es) => Prepend(es, ScanOf(readers[|readers| - 1], start, end))
      case Err(e) => Err(e)
  }

  ghost predicate FirstScanError(readers: seq<SsTableReader>, start: ByteString, end: ByteString, i: int, e: Error) {
    && 0 <= i < |readers| && ScanOf(readers[i], start, end) == Err(e)
    && forall j :: 0 <= j < i ==> ScanOf(readers[j], start, end).Ok?
  }

  /** The scans fail exactly when one of them does, corrupted data included, with the error of the oldest. */
  lemma {:induction false} GatherFailsIff(readers: seq<SsTableReader>, start: ByteString, end: ByteString, e: Error)
    ensures ReadersGather(readers, start, end) == Err(e) <==> exists i :: FirstScanError(readers, start, end, i, e)
    ensures ReadersGather(readers, start, end).Ok? <==>
            forall i :: 0 <= i < |readers| ==> ScanOf(readers[i], start, end).Ok?
  {
    hide ScanOf;
    if readers != [] {
      var n := |readers| - 1;
      GatherFailsIff(readers[..n], start, end, e);
      assert forall i :: FirstScanError(readers[..n], start, end, i, e) ==> FirstScanError(readers, start, end, i, e);
      assert forall i :: i < n && FirstScanError(readers, start, end, i, e) ==>
                           FirstScanError(readers[..n], start, end, i, e);
      assert FirstScanError(readers, start, end, n, e) <==>
             ReadersGather(readers[..n], start, end).Ok? && ScanOf(readers[n], start, end) == Err(e);
    }
  }

  /** Appends what the table files hold in the range to what the memtables gave. */
  method GatherFromReaders(found: seq<Entry>, readers: seq<SsTableReader>, start: ByteString, end: ByteString)
    returns (r: Result<seq<Entry>>)
    ensures r == Prepend(found, ReadersGather(readers, start, end))
  {
    hide SsTableReader.ScanFrom, SsTableReader.StartBlock;
    var results := found;
    assert found + [] == found;
    for i := 0 to |readers|
      invariant Ok(results) == Prepend(found, ReadersGather(readers[..i], start, end))
    {
      assert readers[..i + 1][..i] == readers[..i];
      var part := readers[i].Scan(start, end);
      if part.Err? {
        GatherStopped(readers, i, start, end);
        return part;
      }
      Regroup(found, ReadersGather(readers[..i], start, end).value, part.value);
      results := results + part.value;
    }
    assert readers[..|readers|] == readers;
    return Ok(results);
  }

  lemma GatherStopped(readers: seq<SsTableReader>, i: nat, start: ByteString, end: ByteString)
    requires i < |readers| && ReadersGather(readers[..i], start, end).Ok? && ScanOf(readers[i], start, end).Err?
    ensures ReadersGather(readers, start, end) == Err(ScanOf(readers[i], start, end).error)
  {
    hide ScanOf, ReadersGather;
    var e := ScanOf(readers[i], start, end).error;
    GatherFailsIff(readers[..i], start, end, e);
    assert forall j :: 0 <= j < i ==> readers[..i][j] == readers[j];
    assert FirstScanError(readers, start, end, i, e);
    GatherFailsIff(readers, start, end, e);
  }

  lemma {:induction false} ReadersGatherTables(
    readers: seq<SsTableReader>, tables: seq<Table>, start: ByteString, end: ByteString)
    requires AllAnswer(readers, tables)
    ensures ReadersGather(readers, start, end) == Ok(EngineScan.GatherTables(tables, start, end))
  {
    hide SsTableReader.Get, SsTableReader.ScanFrom, SsTableReader.StartBlock, Lookup, Range;
    if readers != [] {
      var n := |readers| - 1;
      ReadersGatherTables(readers[..n], tables[..n], start, end);
      assert Answers(readers[n], tables[n].entries);
    }
  }

  /** The file a flush writes for a table's entries. */
  function FileFor(p: Params, t: Table): ByteString
    requires p.numBits > 0
  {
    TableFile(p, BlocksOf(t.entries, DEFAULT_BLOCK_SIZE))
  }

  /** The table's blocks compress and stay within the widths of the format. */
  ghost predicate Storable(p: Params, t: Table) {
    var blocks := BlocksOf(t.entries, DEFAULT_BLOCK_SIZE);
    Fits(p, blocks) && AllCompressible(p.codec, blocks)
  }

  ghost predicate AllStorable(p: Params, tables: seq<Table>) {
    p.numBits > 0 && Inverts(p.codec) && forall i :: 0 <= i < |tables| ==> Storable(p, tables[i])
  }

  /** The readers are what opening the tables' files gives. */
  ghost predicate OpenedFrom(p: Params, tables: seq<Table>, readers: seq<SsTableReader>)
    requires p.numBits > 0
  {
    && |readers| == |tables|
    && forall i :: 0 <= i < |tables| ==> Open(p.codec, p.hash, FileFor(p, tables[i])) == Ok(readers[i])
  }

  /** Opening the written files gives readers that answer for the tables. */
  lemma FilesAnswer(p: Params, tables: seq<Table>, readers: seq<SsTableReader>)
    requires AllStorable(p, tables) && TablesSorted(tables) && OpenedFrom(p, tables, readers)
    ensures AllAnswer(readers, tables)
  {
    hide Open, Answers, Sorted, Inverts, FileFor, Storable;
    forall i | 0 <= i < |tables| ensures Answers(readers[i], tables[i].entries) {
      assert Storable(p, tables[i]);
      FileAnswers(p, tables[i]);
    }
  }

  lemma FileAnswers(p: Params, t: Table)
    requires p.numBits > 0 && Inverts(p.codec) && Sorted(t.entries) && Storable(p, t)
    ensures var table := Open(p.codec, p.hash, FileFor(p, t));
            table.Ok? && Answers(table.value, t.entries)
  {
    hide Open, Answers, Fits, BlocksOf, TableFile, Compressible;
    TableAnswers(p, t.entries, DEFAULT_BLOCK_SIZE);
  }

  /** The active memtable, the frozen one, then the table files. */
  function FileRead(s: EngineState, readers: seq<SsTableReader>, key: ByteString): Result<Option<ByteString>> {
    if key in s.mem.data then Ok(Some(s.mem.data[key].value))
    else if key in FrozenMap(s) then Ok(Some(FrozenMap(s)[key].value))
    else ReadersGet(readers, key)
  }

  lemma FileReadIsGet(p: Params, s: EngineState, readers: seq<SsTableReader>, key: ByteString)
    requires AllStorable(p, s.tables) && TablesSorted(s.tables) && OpenedFrom(p, s.tables, readers)
    ensures FileRead(s, readers, key) == Ok(EngineModel.Get(s, key))
  {
    hide TablesGet, ReadersGet, AllStorable, OpenedFrom, AllAnswer;
    FilesAnswer(p, s.tables, readers);
    ReadersAnswer(readers, s.tables, key);
  }

  /** The memtables' ranges and those of the table files, sorted, with the first entry of each key. */
  function FileScan(s: EngineState, readers: seq<SsTableReader>, start: ByteString, end: ByteString)
    : Result<seq<Entry>>
  {
    if Less(end, start) then Err(Panic)
    else
      var found := Range(SortedEntries(s.mem.data), start, end, false)
                   + Range(EngineScan.FrozenEntries(s), start, end, false);
      match Prepend(found, ReadersGather(readers, start, end))
      case Ok(es) => Ok(EngineScan.Dedup(EngineScan.SortEntries(es)))
      case Err(e) => Err(e)
  }

  lemma FileScanIsScan(p: Params, s: EngineState, readers: seq<SsTableReader>, start: ByteString, end: ByteString)
    requires AllStorable(p, s.tables) && TablesSorted(s.tables) && OpenedFrom(p, s.tables, readers)
    ensures FileScan(s, readers, start, end) == EngineScan.Scan(s, start, end)
  {
    hide AllStorable, OpenedFrom, AllAnswer, ReadersGather, Range, SortedEntries, EngineScan.GatherTables,
      EngineScan.Dedup, EngineScan.SortEntries;
    FilesAnswer(p, s.tables, readers);
    ReadersGatherTables(readers, s.tables, start, end);
  }

  /** In every such run, a scan through the bytes of the table files aborts on a reversed range, and otherwise
      is sorted and answers every key by the newest timestamp: that of all layers before the end, and of the
      tables at the end itself. */
  lemma ScansThroughFiles(p: Params, memMax: nat, capacity: nat, background: bool, labels: seq<Label>,
                          readers: seq<SsTableReader>, start: ByteString, end: ByteString)
    requires ReadableRun(NewEngine(memMax, capacity, background), labels)
    requires var s := Exec(NewEngine(memMax, capacity, background), labels).0;
             AllStorable(p, s.tables) && OpenedFrom(p, s.tables, readers)
    ensures var s := Exec(NewEngine(memMax, capacity, background), labels).0;
            var r := FileScan(s, readers, start, end);
            if Less(end, start) then r == Err(Panic)
            else
              && r.Ok? && Sorted(r.value)
              && forall key :: Lookup(r.value, key) == EngineScan.ScanAnswer(s, start, end, key)
  {
    hide Exec, ReadableRun, Replay, AllStorable, OpenedFrom, FileScan, EngineModel.Get, EngineScan.Scan, Sorted, Lookup,
      EngineScan.ScanAnswer;
    ReadsRefineMap(memMax, capacity, background, labels);
    var s := Exec(NewEngine(memMax, capacity, background), labels).0;
    FileScanIsScan(p, s, readers, start, end);
    EngineScan.ScanExact(s, start, end);
  }

  /** In every reachable interleaving, with agreeing fallbacks and safe compactions, reads through the
      bytes of the table files return the last put. */
  lemma ReadsThroughFiles(p: Params, memMax: nat, capacity: nat, background: bool, labels: seq<Label>,
                          readers: seq<SsTableReader>, key: ByteString)
    requires ReadableRun(NewEngine(memMax, capacity, background), labels)
    requires var s := Exec(NewEngine(memMax, capacity, background), labels).0;
             AllStorable(p, s.tables) && OpenedFrom(p, s.tables, readers)
    ensures var (s, history) := Exec(NewEngine(memMax, capacity, background), labels);
            FileRead(s, readers, key) == Ok(Read(Replay(history), key))
  {
    hide Exec, ReadableRun, Replay, AllStorable, OpenedFrom, FileRead, EngineModel.Get;
    ReadsRefineMap(memMax, capacity, background, labels);
    FileReadIsGet(p, Exec(NewEngine(memMax, capacity, background), labels).0, readers, key);
  }

  /** Over every safe run, with any number of restarts, reads through the bytes of the table files
      return the last put. */
  lemma RestartsThroughFiles(p: Params, memMax: nat, capacity: nat, background: bool, labels: seq<Label>,
                             readers: seq<SsTableReader>, key: ByteString)
    requires SafeRun(NewEngine(memMax, capacity, background), labels)
    requires var s := Track(NewEngine(memMax, capacity, background), labels).s;
             AllStorable(p, s.tables) && OpenedFrom(p, s.tables, readers)
    ensures var t := Track(NewEngine(memMax, capacity, background), labels);
            FileRead(t.s, readers, key) == Ok(Read(Replay(t.history), key))
  {
    hide Track, SafeRun, Replay, AllStorable, OpenedFrom, FileRead, EngineModel.Get, LogInv, InFileOrder, Layers;
    DurableRun(memMax, capacity, background, labels);
    FileReadIsGet(p, Track(NewEngine(memMax, capacity, background), labels).s, readers, key);
  }

  // ---------- a life of the engine ----------

  /** Setting the segment limit and then the puts. */
  ghost function PutLabels(limit: nat, puts: seq<Entry>): seq<Label> {
    [DoLogLimit(limit)] + seq(|puts|, i requires 0 <= i < |puts| => DoPut(puts[i]))
  }

  predicate AllAcceptedPuts(puts: seq<Entry>) {
    forall i :: 0 <= i < |puts| ==> Accepted(puts[i])
  }

  lemma RecoveredFresh(memMax: nat, capacity: nat, background: bool)
    ensures Recovered(OpenLog(map[], capacity), map[], memMax, background) == NewEngine(memMax, capacity, background)
  {
    var log := OpenLog(map[], capacity);
    DiskRecordsFresh(map[], 1);
    DiskRecordsEmpty();
    assert log.files == map[][1 := []];
  }

  lemma TrackLimit(memMax: nat, capacity: nat, limit: nat)
    ensures var start := NewEngine(memMax, capacity, false);
            && SafeRun(start, PutLabels(limit, []))
            && Track(start, PutLabels(limit, [])) ==
               Tracked(start.(log := start.log.(limit := limit)), [], Marks(0, 0, 0, 0))
  {
    var start := NewEngine(memMax, capacity, false);
    assert PutLabels(limit, []) == [DoLogLimit(limit)];
    assert [DoLogLimit(limit)][..0] == [];
    assert Track(start, []) == Tracked(start, [], Marks(0, 0, 0, 0)) && SafeRun(start, []);
    assert SafeStep(Track(start, []), DoLogLimit(limit));
  }

  /** One more put of a synchronous engine is a safe step. */
  lemma TrackPut(memMax: nat, capacity: nat, limit: nat, puts: seq<Entry>, e: Entry)
    requires SafeRun(NewEngine(memMax, capacity, false), PutLabels(limit, puts))
    requires Accepted(e)
    requires var s := Track(NewEngine(memMax, capacity, false), PutLabels(limit, puts)).s;
             !s.background && !s.waiting
    ensures var start := NewEngine(memMax, capacity, false);
            var t := Track(start, PutLabels(limit, puts));
            var t' := Track(start, PutLabels(limit, puts + [e]));
            && SafeRun(start, PutLabels(limit, puts + [e]))
            && t'.s == PutEntry(t.s, e) && t'.history == t.history + [e]
            && !t'.s.waiting && !t'.s.background
  {
    hide PutEntry, Append, PutMarks, Durable;
    var start := NewEngine(memMax, capacity, false);
    var labels := PutLabels(limit, puts);
    assert PutLabels(limit, puts + [e]) == labels + [DoPut(e)];
    assert (labels + [DoPut(e)])[..|labels|] == labels;
    DurableRun(memMax, capacity, false, labels);
    SyncQuiet(Track(start, labels).s, Track(start, labels).history, Track(start, labels).marks);
    SyncPut(Track(start, labels).s, e);
  }

  lemma SyncQuiet(s: EngineState, history: seq<Entry>, g: Marks)
    requires Durable(s, history, g) && !s.background
    ensures s.results == []
  {}

  /** A synchronous put never waits. */
  lemma SyncPut(s: EngineState, e: Entry)
    requires !s.background && !s.waiting && s.results == []
    ensures !PutEntry(s, e).waiting && !PutEntry(s, e).background
    ensures forall t :: PutRun(s, e, t) <==> t == PutEntry(s, e)
  {
    hide Append, PutState, SortedEntries;
  }

  /** Every table file holds entries that were put, and no more than that. */
  ghost predicate FilesFrom(disk: map<nat, seq<Entry>>, puts: seq<Entry>) {
    forall id :: id in disk ==> |disk[id]| <= |puts| && forall e :: e in disk[id] ==> e in puts
  }

  lemma {:induction false} ReplayHolds(puts: seq<Entry>)
    ensures |Replay(puts)| <= |puts|
    ensures forall k :: k in Replay(puts) ==> Entry(k, Replay(puts)[k].value, Replay(puts)[k].timestamp) in puts
  {
    if puts != [] {
      var front, last := puts[..|puts| - 1], puts[|puts| - 1];
      ReplayHolds(front);
      var m := Replay(front);
      assert Replay(puts).Keys == m.Keys + {last.key};
      assert |Replay(puts)| == |Replay(puts).Keys| <= |m.Keys| + 1 == |m| + 1;
      assert last == Entry(last.key, last.value, last.timestamp);
      assert puts == front + [last];
    }
  }

  lemma SortedHolds(puts: seq<Entry>)
    ensures |SortedEntries(Replay(puts))| <= |puts|
    ensures forall e :: e in SortedEntries(Replay(puts)) ==> e in puts
  {
    hide SortedEntries, Sorted;
    var m := Replay(puts);
    var es := SortedEntries(m);
    ReplayHolds(puts);
    SortedEntriesCorrect(m);
    forall e | e in es ensures e in puts {
      var i :| 0 <= i < |es| && es[i] == e;
      LookupPresent(es, i);
      LookupIsFind(es, e.key);
      assert e == Entry(e.key, m[e.key].value, m[e.key].timestamp);
    }
  }

  /** A put of a synchronous engine adds at most one file, with entries that were put. */
  lemma PutFilesFrom(s: EngineState, puts: seq<Entry>, g: Marks, e: Entry)
    requires Durable(s, puts, g) && !s.background && FilesFrom(s.disk, puts) && Accepted(e)
    ensures FilesFrom(PutEntry(s, e).disk, puts + [e])
  {
    hide Append, Structure, InFileOrder, LogInv, Retained, SortedEntries, Replay, TablesMap;
    SyncQuiet(s, puts, g);
    var tail := puts[g.memStart..] + [e];
    ReplayAppend(puts[g.memStart..], e);
    SortedHolds(tail);
    assert PutState(s.mem, e).data == Replay(tail);
    assert forall x :: x in tail ==> x in puts + [e];
    var t := PutEntry(s, e);
    assert t.disk == s.disk || t.disk == s.disk[s.counter := SortedEntries(Replay(tail))];
  }

  /** The engine's state and the puts so far are a safe run of the state machine. */
  ghost predicate Follows(s: EngineState, puts: seq<Entry>, memMax: nat, limit: nat, capacity: nat) {
    var start := NewEngine(memMax, capacity, false);
    var t := Track(start, PutLabels(limit, puts));
    && SafeRun(start, PutLabels(limit, puts)) && t.s == s && t.history == puts && !s.waiting && !s.background
    && FilesFrom(s.disk, puts)
  }

  /** An empty directory, a log and a synchronous engine. */
  method StartFresh(crc: Checksum, memMax: nat, limit: nat, capacity: nat) returns (engine: StorageEngine)
    ensures engine.Valid() && engine.wal.crc == crc && fresh(engine.Repr())
    ensures Follows(engine.State(false), [], memMax, limit, capacity)
  {
    hide Wal.Valid, Track, SafeRun, Recovered, PutLabels, Stores;
    var dir := new Directory();
    EmptyStores(crc);
    var wal := new Wal(crc, dir, capacity, map[]);
    engine := new StorageEngine(wal, map[], memMax, false);
    RecoveredFresh(memMax, capacity, false);
    wal.SetSegmentSizeLimit(limit);
    TrackLimit(memMax, capacity, limit);
  }

  lemma FollowsPut(s: EngineState, puts: seq<Entry>, memMax: nat, limit: nat, capacity: nat, e: Entry,
                   next: EngineState)
    requires Follows(s, puts, memMax, limit, capacity) && Accepted(e) && PutRun(s, e, next)
    ensures Follows(next, puts + [e], memMax, limit, capacity)
  {
    hide Track, SafeRun, PutEntry, PutRun, PutLabels, FilesFrom, Durable;
    var t := Track(NewEngine(memMax, capacity, false), PutLabels(limit, puts));
    DurableRun(memMax, capacity, false, PutLabels(limit, puts));
    PutFilesFrom(s, puts, t.marks, e);
    TrackPut(memMax, capacity, limit, puts, e);
    TrackQuiet(memMax, capacity, limit, puts);
    SyncPut(s, e);
  }

  method PutAll(engine: StorageEngine, puts: seq<Entry>, ghost memMax: nat, ghost limit: nat, ghost capacity: nat)
    requires engine.Valid() && AllAcceptedPuts(puts)
    requires Follows(engine.State(false), [], memMax, limit, capacity)
    modifies engine.Repr()
    ensures engine.Valid() && fresh(engine.Repr() - old(engine.Repr()))
    ensures Follows(engine.State(false), puts, memMax, limit, capacity)
  {
    hide Wal.Valid, Follows, PutRun;
    assert puts[..0] == [];
    for i := 0 to |puts|
      invariant engine.Valid() && fresh(engine.Repr() - old(engine.Repr()))
      invariant Follows(engine.State(false), puts[..i], memMax, limit, capacity)
    {
      ghost var before := engine.State(false);
      var done := engine.Put(puts[i].key, puts[i].value, puts[i].timestamp);
      assert puts[i] == Entry(puts[i].key, puts[i].value, puts[i].timestamp);
      assert puts[..i + 1] == puts[..i] + [puts[i]];
      FollowsPut(before, puts[..i], memMax, limit, capacity, puts[i], engine.State(false));
    }
    assert puts[..|puts|] == puts;
  }

  /** The table files as bytes. */
  function FileBytes(p: Params, disk: map<nat, seq<Entry>>): map<nat, ByteString>
    requires p.numBits > 0
  {
    map id | id in disk :: FileFor(p, Table(id, disk[id]))
  }

  /** The readers of the listed files that open; the others are skipped. */
  function OpenedReaders(p: Params, files: map<nat, ByteString>, order: seq<nat>): seq<SsTableReader>
    requires forall id :: id in order ==> id in files
  {
    if order == [] then []
    else
      OpenedReaders(p, files, order[..|order| - 1])
      + match Open(p.codec, p.hash, files[order[|order| - 1]])
        case Ok(reader) => [reader]
        case Err(_) => []
  }

  /** A file that does not open is left out; the others are unaffected. */
  lemma {:induction false} UnopenedSkipped(p: Params, files: map<nat, ByteString>, order: seq<nat>, i: nat)
    requires forall id :: id in order ==> id in files
    requires i < |order| && Open(p.codec, p.hash, files[order[i]]).Err?
    ensures OpenedReaders(p, files, order) == OpenedReaders(p, files, order[..i] + order[i + 1..])
  {
    hide Open;
    var n := |order| - 1;
    if i < n {
      UnopenedSkipped(p, files, order[..n], i);
      var without := order[..i] + order[i + 1..];
      assert without[..n - 1] == order[..n][..i] + order[..n][i + 1..];
      assert without[n - 1] == order[n];
    } else {
      assert order[..i] + order[i + 1..] == order[..n];
    }
  }

  /** Opens the table files in number order, skipping those that do not open. */
  method OpenTables(p: Params, files: map<nat, ByteString>) returns (readers: seq<SsTableReader>)
    ensures readers == OpenedReaders(p, files, Ascending(files.Keys))
  {
    hide Open, Ascending;
    readers := [];
    var order := Ascending(files.Keys);
    for i := 0 to |order|
      invariant readers == OpenedReaders(p, files, order[..i])
    {
      assert order[i] in order;
      assert order[..i + 1][..i] == order[..i];
      match Open(p.codec, p.hash, files[order[i]]) {
        case Ok(reader) => readers := readers + [reader];
        case Err(_) => assert readers + [] == readers;
      }
    }
    assert order[..|order|] == order;
  }

  /** Every file written for a table opens. */
  lemma {:induction false} WrittenFilesOpen(p: Params, disk: map<nat, seq<Entry>>, order: seq<nat>)
    requires forall id :: id in order ==> id in disk
    requires AllStorable(p, TablesIn(disk, order)) && TablesSorted(TablesIn(disk, order))
    ensures OpenedFrom(p, TablesIn(disk, order), OpenedReaders(p, FileBytes(p, disk), order))
  {
    hide Open, FileFor, Answers, Storable, Inverts, Sorted;
    if order != [] {
      var n := |order| - 1;
      var front, tables := order[..n], TablesIn(disk, order);
      assert forall i :: 0 <= i < n ==> TablesIn(disk, front)[i] == tables[i];
      WrittenFilesOpen(p, disk, front);
      assert order[n] in order && tables[n] == Table(order[n], disk[order[n]]);
      FileAnswers(p, tables[n]);
    }
  }

  lemma FilesOpen(p: Params, disk: map<nat, seq<Entry>>)
    requires AllStorable(p, TablesOnDisk(disk)) && TablesSorted(TablesOnDisk(disk))
    ensures var files := FileBytes(p, disk);
            OpenedFrom(p, TablesOnDisk(disk), OpenedReaders(p, files, Ascending(files.Keys)))
  {
    assert p.numBits > 0;
    hide AllStorable, TablesSorted, TablesIn, OpenedFrom, FileFor, Ascending;
    assert FileBytes(p, disk).Keys == disk.Keys;
    WrittenFilesOpen(p, disk, Ascending(disk.Keys));
  }

  /** Writes the file of every table. */
  method WriteTables(p: Params, disk: map<nat, seq<Entry>>) returns (files: map<nat, ByteString>)
    requires AllStorable(p, TablesOnDisk(disk))
    ensures files == FileBytes(p, disk)
  {
    hide TableFile, BlocksOf, AllCompressible, Inverts, Ascending;
    files := map[];
    var order := Ascending(disk.Keys);
    for i := 0 to |order|
      invariant files.Keys == set id | id in order[..i]
      invariant forall id :: id in files ==> id in disk && files[id] == FileFor(p, Table(id, disk[id]))
    {
      assert order[i] in order;
      assert Storable(p, TablesOnDisk(disk)[i]);
      StorableSized(p, TablesOnDisk(disk)[i]);
      var written := WriteTable(p, DEFAULT_BLOCK_SIZE, disk[order[i]]);
      files := files[order[i] := written.value];
    }
    assert order[..|order|] == order;
  }

  /** Files of a bounded number of accepted puts are within the widths of the format. */
  lemma FilesStorable(p: Params, disk: map<nat, seq<Entry>>, puts: seq<Entry>)
    requires FilesFrom(disk, puts) && AllAcceptedPuts(puts) && |puts| <= MAX_ENTRIES
    requires 1 <= p.numBits < 0x1_0000_0000 && Inverts(p.codec) && BoundedCodec(p.codec)
    ensures AllStorable(p, TablesOnDisk(disk))
  {
    hide Inverts, BoundedCodec, Accepted, Fits, AllCompressible, BlocksOf, Ascending;
    var tables := TablesOnDisk(disk);
    forall i | 0 <= i < |tables| ensures Storable(p, tables[i]) {
      var es := tables[i].entries;
      assert tables[i].id in Ascending(disk.Keys) && es == disk[tables[i].id];
      assert forall k :: 0 <= k < |es| ==> es[k] in es;
      BoundedFits(p, es, DEFAULT_BLOCK_SIZE);
    }
  }

  lemma StorableSized(p: Params, t: Table)
    requires Storable(p, t)
    ensures AllWordSized(t.entries) && AllCompressible(p.codec, BlocksOf(t.entries, DEFAULT_BLOCK_SIZE))
  {
    hide TableFile, BlocksOf, AllCompressible, AllWordSized;
    BlocksOfCorrect(t.entries, DEFAULT_BLOCK_SIZE);
  }

  /** From an empty directory: puts, a log flush, a crash, and a restart that has only the bytes of the
      log segments and of the table files. For any memtable limit, segment limit and buffer size a
      read is then the last put, for up to 30000 puts and a codec that at most doubles a block. */
  method WriteRestartRead(p: Params, crc: Checksum, puts: seq<Entry>, memMax: nat, limit: nat, capacity: nat,
                          key: ByteString)
    returns (r: Result<Option<ByteString>>)
    requires AllAcceptedPuts(puts) && |puts| <= MAX_ENTRIES
    requires 1 <= p.numBits < 0x1_0000_0000 && Inverts(p.codec) && BoundedCodec(p.codec)
    ensures r == Ok(Read(Replay(puts), key))
  {
    hide Wal.Valid, Replay, Recovered, Reopen, Stores, WalLog.Flush, Track, SafeRun, TablesOnDisk, AllStorable,
      EntriesOf, DiskRecords, RunPuts, OpenedFrom, ReadersGet, TablesSorted, EngineModel.Get, PutLabels, OpenLog,
      FilesFrom, Inverts, BoundedCodec, Accepted;
    var engine := StartFresh(crc, memMax, limit, capacity);
    PutAll(engine, puts, memMax, limit, capacity);
    var wal := engine.wal;
    ghost var s := engine.State(false);
    wal.Flush();
    FilesStorable(p, s.disk, puts);
    var files := WriteTables(p, engine.diskFiles);
    FlushedRestart(s, puts, memMax, limit, capacity);
    StoredFiles(wal);

    var reopened := new Wal(crc, wal.dir, capacity, wal.log.files);
    ghost var restarted := Reopen(s.(log := WalLog.Flush(s.log)), false, memMax, capacity, false);
    RestartedParts(s.(log := WalLog.Flush(s.log)), memMax, capacity);
    RecoverValid(reopened);
    var recovered := Wal.RecoverDirectory(crc, reopened.dir);
    var memtable := new MemTable(memMax);
    memtable := Refill(memtable, recovered.value);
    var readers := OpenTables(p, files);
    FilesOpen(p, s.disk);
    FileReadIsGet(p, restarted, readers, key);
    if key in memtable.data {
      r := Ok(Some(memtable.data[key].value));
    } else {
      r := GetFromReaders(readers, key);
    }
  }

  lemma RestartedParts(s: EngineState, memMax: nat, capacity: nat)
    ensures var r := Reopen(s, false, memMax, capacity, false);
            && r.tables == TablesOnDisk(s.disk) && FrozenMap(r) == map[]
            && r.mem == RunPuts(EmptyState(memMax), EntriesOf(DiskRecords(OpenLog(s.log.files, capacity).files)))
  {}

  lemma EmptyStores(crc: Checksum)
    ensures Stores(crc, map[], map[])
  {}

  lemma StoredFiles(wal: Wal)
    requires wal.Valid()
    ensures Stores(wal.crc, wal.dir.files, wal.log.files)
  {}

  lemma TrackQuiet(memMax: nat, capacity: nat, limit: nat, puts: seq<Entry>)
    requires SafeRun(NewEngine(memMax, capacity, false), PutLabels(limit, puts))
    requires !Track(NewEngine(memMax, capacity, false), PutLabels(limit, puts)).s.background
    ensures Track(NewEngine(memMax, capacity, false), PutLabels(limit, puts)).s.results == []
  {
    hide Durable, Track, SafeRun;
    var t := Track(NewEngine(memMax, capacity, false), PutLabels(limit, puts));
    DurableRun(memMax, capacity, false, PutLabels(limit, puts));
    SyncQuiet(t.s, t.history, t.marks);
  }

  /** After the puts and a log flush, a restart reads the map of the puts. */
  lemma FlushedRestart(s: EngineState, puts: seq<Entry>, memMax: nat, limit: nat, capacity: nat)
    requires Follows(s, puts, memMax, limit, capacity)
    ensures var r := Reopen(s.(log := WalLog.Flush(s.log)), false, memMax, capacity, false);
            && TablesSorted(TablesOnDisk(s.disk))
            && forall key :: EngineModel.Get(r, key) == Read(Replay(puts), key)
  {
    hide Durable, Track, SafeRun, Reopen, EngineModel.Get, Replay, WalLog.Flush, TablesOnDisk, TablesSorted;
    var t := Track(NewEngine(memMax, capacity, false), PutLabels(limit, puts));
    DurableRun(memMax, capacity, false, PutLabels(limit, puts));
    LogFlushKeepsDurable(t.s, t.history, t.marks);
    FlushEmpties(t.s.log);
    var f := Tracked(t.s.(log := WalLog.Flush(t.s.log)), t.history, t.marks);
    DurableReads(f);
    RestartPreservesReads(f, memMax, capacity, false);
    SyncDisk(t.s, t.history, t.marks);
  }

  lemma SyncDisk(s: EngineState, history: seq<Entry>, g: Marks)
    requires Durable(s, history, g)
    ensures TablesSorted(TablesOnDisk(s.disk))
  {
    DiskTablesSorted(s);
  }

  // ---------- the hypotheses can be met ----------

  /** A codec that stores blocks as they are, and a one-entry table within every width. */
  lemma StorableExample() returns (p: Params, t: Table)
    ensures p.numBits > 0 && Inverts(p.codec) && TablesSorted([t]) && t.entries != [] && Storable(p, t)
  {
    var codec := Codec((b: ByteString) => Some(b), (c: ByteString) => Some(c));
    p := Params(codec, (key: ByteString, seed: nat) => 0, 8, 1);
    var e := Entry([1], [2], 3);
    t := Table(1, [e]);
    OneBlock(e);
    OneBlockFits(p, e);
  }

  lemma OneBlock(e: Entry)
    ensures BlocksOf([e], DEFAULT_BLOCK_SIZE) == [[e]]
  {
    hide EncodeEntries;
    assert [e][..0] == [] && [] + [e] == [e];
    var none: seq<seq<Entry>> := [];
    assert none + [[e]] == [[e]];
    assert SplitBlocks([], DEFAULT_BLOCK_SIZE) == Progress(none, []);
    var s := SplitBlocks([e], DEFAULT_BLOCK_SIZE);
    assert s == AddProgress(Progress(none, []), DEFAULT_BLOCK_SIZE, e);
    assert s == Progress([[e]], []) || s == Progress(none, [e]);
  }

  lemma OneBlockFits(p: Params, e: Entry)
    requires p.numBits == 8 && p.codec.compress == ((b: ByteString) => Some(b)) && |e.key| == 1 && |e.value| == 1
    ensures Fits(p, [[e]]) && Compressible(p.codec, [e])
  {
    hide LittleEndian, HeaderBytes, FooterBytes, AddKeys;
    var blocks := [[e]];
    assert blocks[1..] == [] && Flatten(blocks) == [e];
    assert EncodeEntries([], [e]) == EncodeEntry([], e) + [] by { assert [e][1..] == []; }
    assert |EncodeEntries([], [e])| <= 30;
    assert BlockBytes(p.codec, [e]) == EncodeEntries([], [e]);
    var parts := AllBlockBytes(p.codec, blocks);
    assert parts == [BlockBytes(p.codec, [e])] && parts[..0] == [];
    assert |Join(parts)| <= 30;
    var index := IndexOf(p.codec, blocks);
    assert |index| == 1 && index[1..] == [] && |index[0].firstKey| == 1;
    assert |IndexBytes(index)| == 15;
  }
}
