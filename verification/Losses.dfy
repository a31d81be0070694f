/** Where a restart or a fallback does change what readers see (src/storage_engine.rs): exactly
    when, and a run that shows it. */
module Losses {
  import opened Bytes
  import opened Results
  import opened Entries
  import opened Numbers
  import opened Records
  import opened WalLog
  import opened Memtables
  import opened Tables
  import opened EngineModel
  import opened EngineRuns
  import opened Durability
  import opened DurableRuns

  // ---------- a gap in the history ----------

  /** The keys of `lost` are put again later, or already had the lost value. */
  ghost predicate GapHarmless(before: seq<Entry>, lost: seq<Entry>, later: seq<Entry>) {
    forall key :: key in Replay(lost) ==>
      key in Replay(later) || Read(Replay(before), key) == Some(Replay(lost)[key].value)
  }

  /** Leaving a stretch out of the history changes no read exactly when the gap is harmless. */
  lemma GapReadsIff(before: seq<Entry>, lost: seq<Entry>, later: seq<Entry>)
    ensures SameReads(Replay(before) + Replay(later), Replay(before + (lost + later)))
            <==> GapHarmless(before, lost, later)
  {
    hide Replay;
    ReplayConcat(lost, later);
    ReplayConcat(before, lost + later);
    var gapped, full := Replay(before) + Replay(later), Replay(before + (lost + later));
    assert full == Replay(before) + (Replay(lost) + Replay(later));
    if SameReads(gapped, full) {
      forall key | key in Replay(lost) && key !in Replay(later)
        ensures Read(Replay(before), key) == Some(Replay(lost)[key].value)
      {
        assert Read(gapped, key) == Read(full, key);
      }
    }
  }

  ghost predicate SameGets(a: EngineState, b: EngineState) {
    forall key :: Get(a, key) == Get(b, key)
  }

  lemma SameGetsIff(a: EngineState, b: EngineState)
    requires TablesSorted(a.tables) && TablesSorted(b.tables)
    ensures SameGets(a, b) <==> SameReads(View(a), View(b))
  {
    hide Get, View;
    forall key ensures Get(a, key) == Get(b, key) <==> Read(View(a), key) == Read(View(b), key) {
      GetIsView(a, key);
      GetIsView(b, key);
    }
  }

  // ---------- restarts ----------

  /** What is read after a restart that loses nothing of the log: the files, and over them what the
      log retains. */
  lemma RestartView(s: EngineState, history: seq<Entry>, clean: bool, memMax: nat, capacity: nat, background: bool)
    requires Structure(s) && LogInv(s.log, Recs(history)) && (clean || s.log.pending == [])
    ensures 0 <= LogStart(s, history) <= |history|
    ensures var r := Reopen(s, clean, memMax, capacity, background);
            TablesSorted(r.tables)
            && View(r) == TablesMap(TablesOnDisk(s.disk)) + Replay(history[LogStart(s, history)..])
  {
    hide Replay, TablesMap, Retained, LogInv, Sorted, DiskRecords, RunPuts, Ascending;
    LogBounds(s, history);
    var closed := if clean then s.(log := Flush(s.log)) else s;
    if clean {
      FlushMarks(s.log, Recs(history));
      CleanReopenIsFlush(s, memMax, capacity, background);
    }
    ReopenMemtable(closed, history, memMax, capacity);
    assert OnDisk(closed, history) == history[LogStart(s, history)..];
    DiskTablesSorted(s);
  }

  function Max(a: int, b: int): int {
    if b <= a then a else b
  }

  function Min(a: int, b: int): int {
    if a <= b then a else b
  }

  /** The stretch from one position to another, if the first comes first. */
  function Between(history: seq<Entry>, from: int, upTo: int): seq<Entry>
    requires 0 <= from <= |history| && upTo <= |history|
  {
    if upTo <= from then [] else history[from..upTo]
  }

  /** The puts between what the files hold and where the log starts, if any, are harmless. */
  ghost predicate SafeBetween(history: seq<Entry>, files: int, log: int) {
    && 0 <= files <= |history| && 0 <= log <= |history|
    && GapHarmless(history[..files], Between(history, files, log), history[Max(files, log)..])
  }

  /** Files up to one position and the log from another: a gap if the log starts later. */
  lemma GapOrOverlap(history: seq<Entry>, files: nat, log: nat)
    requires files <= |history| && log <= |history|
    ensures SameReads(Replay(history[..files]) + Replay(history[log..]), Replay(history))
            <==> SafeBetween(history, files, log)
  {
    hide Replay, GapHarmless, SameReads;
    if log <= files {
      ReplayOverlap(history, log, files);
      GapEmpty(history[..files], history[files..]);
      SameReadsSelf(Replay(history));
    } else {
      CutTwice(history, files, log);
      GapReadsIff(history[..files], history[files..log], history[log..]);
    }
  }

  lemma SameReadsSelf(m: Contents)
    ensures SameReads(m, m)
  {}

  lemma GapEmpty(before: seq<Entry>, later: seq<Entry>)
    ensures GapHarmless(before, [], later)
  {}

  lemma StructureTables(s: EngineState)
    requires Structure(s)
    ensures TablesSorted(s.tables)
  {}

  // ---------- exactly what a restart changes ----------

  /** A restart that loses nothing of the log, clean or with an empty buffer, leaves every read
      unchanged exactly when the puts between the files and the log are harmless. */
  lemma RestartReadsExactly(s: EngineState, history: seq<Entry>, g: Marks, clean: bool, memMax: nat, capacity: nat,
                        background: bool)
    requires Layered(s, history, g) && (clean || s.log.pending == [])
    ensures SameGets(Reopen(s, clean, memMax, capacity, background), s)
            <==> SafeBetween(history, OnFiles(s, g), LogStart(s, history))
  {
    hide Replay, Structure, InFileOrder, LogInv, SafeBetween, Retained, Reopen, View, SameReads, SameGets, TablesOnDisk,
      TablesMap;
    RestartView(s, history, clean, memMax, capacity, background);
    ReopenTables(s, history, g);
    FilesWithin(s, history, g);
    LayersAreMap(s, history, g);
    StructureTables(s);
    GapOrOverlap(history, OnFiles(s, g), LogStart(s, history));
    SameGetsIff(Reopen(s, clean, memMax, capacity, background), s);
  }

  lemma FilesWithin(s: EngineState, history: seq<Entry>, g: Marks)
    requires Layers(s, history, g)
    ensures OnFiles(s, g) <= |history| && g.memStart <= |history|
  {}

  /** The puts whose records are in the log files. */
  function LoggedContents(s: EngineState): Contents {
    Replay(EntriesOf(DiskRecords(s.log.files)))
  }

  /** The puts whose records are still in the log buffer. */
  function BufferedContents(s: EngineState): Contents {
    Replay(EntriesOf(s.log.pending))
  }

  /** The key's last record in the log files, or else the table files, give the value. */
  predicate DiskGives(s: EngineState, key: ByteString, value: ByteString) {
    if key in LoggedContents(s) then LoggedContents(s)[key].value == value
    else Read(TablesMap(TablesOnDisk(s.disk)), key) == Some(value)
  }

  /** A put of the key is buffered, or lies between the files and the log. */
  predicate AtRisk(s: EngineState, history: seq<Entry>, files: int, log: int, key: ByteString) {
    key in BufferedContents(s)
    || (0 <= files <= |history| && log <= |history| && key in Replay(Between(history, files, log)))
  }

  /** For every key at risk the disk gives the value of its last put. */
  ghost predicate CrashSafe(s: EngineState, history: seq<Entry>, files: int, log: int) {
    forall key :: key in Replay(history) && AtRisk(s, history, files, log, key) ==>
      DiskGives(s, key, Replay(history)[key].value)
  }

  /** What a crash changes, whatever is buffered: keys not at risk never change, and nothing changes
      exactly when the disk gives those at risk their last values. */
  lemma CrashReadsExactly(s: EngineState, history: seq<Entry>, g: Marks, memMax: nat, capacity: nat, background: bool)
    requires Layered(s, history, g)
    ensures var r := Reopen(s, false, memMax, capacity, background);
            var files, log := OnFiles(s, g), LogStart(s, history);
            && (forall key :: !AtRisk(s, history, files, log, key) ==> Get(r, key) == Get(s, key))
            && (SameGets(r, s) <==> CrashSafe(s, history, files, log))
  {
    hide Replay, Structure, InFileOrder, LogInv, Retained, Reopen, View, Get, Layers, TablesMap, LoggedContents,
      BufferedContents, TablesOnDisk, AtRisk, CrashSafe, SameGets;
    var r := Reopen(s, false, memMax, capacity, background);
    CrashViews(s, history, g, memMax, capacity, background);
    forall key | !AtRisk(s, history, OnFiles(s, g), LogStart(s, history), key)
      ensures Read(TablesMap(TablesOnDisk(s.disk)) + LoggedContents(s), key) == Read(Replay(history), key)
    {
      NotAtRisk(s, history, g, key);
    }
    forall key | AtRisk(s, history, OnFiles(s, g), LogStart(s, history), key) ensures key in Replay(history) {
      RiskIsPut(s, history, OnFiles(s, g), LogStart(s, history), key);
    }
    RiskReadsIff(s, r, s, history, OnFiles(s, g), LogStart(s, history));
  }

  lemma CrashViews(s: EngineState, history: seq<Entry>, g: Marks, memMax: nat, capacity: nat, background: bool)
    requires Layered(s, history, g)
    ensures var r := Reopen(s, false, memMax, capacity, background);
            && TablesSorted(r.tables) && TablesSorted(s.tables)
            && View(r) == TablesMap(TablesOnDisk(s.disk)) + LoggedContents(s) && View(s) == Replay(history)
  {
    hide Replay, Structure, LogInv, Retained, InFileOrder, TablesMap, Reopen, View, TablesOnDisk, Layers,
      LoggedContents, BufferedContents, TablesSorted;
    ReopenView(s, history, g, memMax, capacity, background);
    ReopenTables(s, history, g);
    ReopenStructure(s, memMax, capacity, background);
    StructureTables(s);
    StructureTables(Reopen(s, false, memMax, capacity, background));
    LayersAreMap(s, history, g);
    LogParts(s, history);
  }

  /** Reads of a state that sees what is on disk, against the history. */
  lemma RiskReadsIff(d: EngineState, r: EngineState, s: EngineState, history: seq<Entry>, files: int, log: int)
    requires TablesSorted(r.tables) && TablesSorted(s.tables)
    requires View(r) == TablesMap(TablesOnDisk(d.disk)) + LoggedContents(d) && View(s) == Replay(history)
    requires forall key :: !AtRisk(d, history, files, log, key) ==> Read(View(r), key) == Read(View(s), key)
    requires forall key :: AtRisk(d, history, files, log, key) ==> key in Replay(history)
    ensures forall key :: !AtRisk(d, history, files, log, key) ==> Get(r, key) == Get(s, key)
    ensures SameGets(r, s) <==> CrashSafe(d, history, files, log)
  {
    hide Replay, View, Get, AtRisk, TablesMap, TablesOnDisk, LoggedContents;
    forall key ensures Get(r, key) == Read(View(r), key) && Get(s, key) == Read(View(s), key) {
      GetIsView(r, key);
      GetIsView(s, key);
    }
    forall key | key in Replay(history)
      ensures DiskGives(d, key, Replay(history)[key].value) <==> Read(View(r), key) == Read(View(s), key)
    {}
  }

  /** A key with no put in the gap or in the buffer is answered by the disk as by the history. */
  lemma NotAtRisk(s: EngineState, history: seq<Entry>, g: Marks, key: ByteString)
    requires Layered(s, history, g)
    requires !AtRisk(s, history, OnFiles(s, g), LogStart(s, history), key)
    ensures Read(TablesMap(TablesOnDisk(s.disk)) + LoggedContents(s), key) == Read(Replay(history), key)
  {
    hide Replay, Structure, LogInv, Retained, InFileOrder, TablesMap, TablesOnDisk, LoggedContents, BufferedContents,
      AtRisk, Between, Layers;
    LogBounds(s, history);
    LogParts(s, history);
    ReopenTables(s, history, g);
    FilesWithin(s, history, g);
    RiskParts(s, history, OnFiles(s, g), LogStart(s, history), key);
    KeyKept(history, OnFiles(s, g), LogStart(s, history), |history| - |s.log.pending|, key);
  }

  lemma RiskParts(s: EngineState, history: seq<Entry>, files: int, log: int, key: ByteString)
    requires !AtRisk(s, history, files, log, key) && 0 <= files <= |history| && log <= |history|
    ensures key !in BufferedContents(s) && key !in Replay(Between(history, files, log))
  {
    hide Replay, Between, BufferedContents;
  }

  lemma KeyKept(history: seq<Entry>, files: nat, log: nat, upTo: nat, key: ByteString)
    requires files <= |history| && log <= upTo <= |history|
    requires key !in Replay(history[upTo..]) && key !in Replay(Between(history, files, log))
    ensures Read(Replay(history[..files]) + Replay(history[log..upTo]), key) == Read(Replay(history), key)
  {
    hide Replay;
    if log <= files {
      ThreeLayers(history, files, log, upTo);
    } else {
      CutTwice(history, files, log);
      CutTwice(history, log, upTo);
      ReplayConcat(history[log..upTo], history[upTo..]);
      ReplayConcat(history[files..log], history[log..]);
      ReplayConcat(history[..files], history[files..log] + history[log..]);
    }
  }

  /** Keys at risk have been put. */
  lemma RiskIsPut(s: EngineState, history: seq<Entry>, files: int, log: int, key: ByteString)
    requires LogInv(s.log, Recs(history)) && AtRisk(s, history, files, log, key)
    ensures key in Replay(history)
  {
    hide Replay, LogInv, Retained, BufferedContents;
    LogBounds(s, history);
    LogParts(s, history);
    if key in BufferedContents(s) {
      var upTo := |history| - |s.log.pending|;
      CutTwice(history, 0, upTo);
      assert history[..0] == [] && history[0..upTo] == history[..upTo];
      ReplayConcat(history[..upTo], history[upTo..]);
      assert history == history[..upTo] + history[upTo..];
    } else if files < log {
      CutTwice(history, files, log);
      ReplayConcat(history[files..log], history[log..]);
      ReplayConcat(history[..files], history[files..log] + history[log..]);
    } else {
      NothingBetween(history, files, log);
    }
  }

  lemma NothingBetween(history: seq<Entry>, files: int, log: int)
    requires 0 <= files <= |history| && log <= files
    ensures Replay(Between(history, files, log)) == map[]
  {}

  // ---------- registering a table after the log rotated ----------

  /** Registering a table cleans the log down to its active segment. Exactly when a restart, or a crash,
      then preserves every read. */
  lemma CompletionLossIff(s: EngineState, history: seq<Entry>, g: Marks, clean: bool, memMax: nat, capacity: nat,
                          background: bool)
    requires Layered(s, history, g) && s.results != []
    ensures var c := CompleteOne(s);
            var same := SameGets(Reopen(c, clean, memMax, capacity, background), c);
            && (clean || s.log.pending == [] ==>
                  (same <==> SafeBetween(history, g.memStart, SegmentStart(s, history))))
            && (!clean ==> (same <==> CrashSafe(c, history, g.memStart, SegmentStart(s, history))))
  {
    hide Replay, Structure, InFileOrder, LogInv, SafeBetween, CrashSafe, Retained, Reopen, CompleteOne, SameGets,
      Layers, AtRisk;
    var c := CompleteOne(s);
    var g' := g.(flushed := g.memStart);
    assert history[..|history|] == history;
    CompleteKeepsLayers(s, history, g, |history|);
    if clean || c.log.pending == [] {
      RestartReadsExactly(c, history, g', clean, memMax, capacity, background);
    }
    if !clean {
      CrashReadsExactly(c, history, g', memMax, capacity, background);
    }
  }

  // ---------- a restart after a fallback ----------

  /** Every put is in a file or the log after the fallback, but for those of the frozen memtable whose
      file is not written and whose segments the fallback's cleanup deleted. Exactly when a restart, or
      a crash, gives the reads from before it. */
  lemma FallbackRestartIff(s: EngineState, history: seq<Entry>, g: Marks, clean: bool, memMax: nat, capacity: nat,
                           background: bool)
    requires Layered(s, history, g) && Enabled(s, DoFallback)
    ensures var same := SameGets(Reopen(Fallback(s), clean, memMax, capacity, background), s);
            var from, upTo := OnFiles(s, g), Min(g.memStart, SegmentStart(s, history));
            && (clean || s.log.pending == [] ==> (same <==> SafeBetween(history, from, upTo)))
            && (clean || s.log.pending == [] ==> s.results != [] ==> same)
            && (!clean ==> (same <==> CrashSafe(Fallback(s), history, from, upTo)))
  {
    hide Replay, Structure, InFileOrder, LogInv, GapHarmless, Retained, Reopen, View, SameReads, SameGets, Fallback,
      CrashSafe, AtRisk;
    var r := Reopen(Fallback(s), clean, memMax, capacity, background);
    var from, upTo := OnFiles(s, g), Min(g.memStart, SegmentStart(s, history));
    if clean || s.log.pending == [] {
      FallbackViews(s, history, g, clean, memMax, capacity, background);
      GapOrOverlap(history, from, upTo);
      GapEmpty(history[..from], history[Max(from, upTo)..]);
      SameGetsIff(r, s);
    }
    if !clean {
      FallbackCrash(s, history, g, memMax, capacity, background);
    }
  }

  lemma FallbackCrash(s: EngineState, history: seq<Entry>, g: Marks, memMax: nat, capacity: nat, background: bool)
    requires Layered(s, history, g) && Enabled(s, DoFallback)
    ensures SameGets(Reopen(Fallback(s), false, memMax, capacity, background), s)
            <==> CrashSafe(Fallback(s), history, OnFiles(s, g), Min(g.memStart, SegmentStart(s, history)))
  {
    hide Replay, Structure, InFileOrder, LogInv, Retained, Reopen, View, Fallback, CrashSafe, AtRisk, SameGets,
      TablesMap, TablesOnDisk, LoggedContents, Layers;
    var f := Fallback(s);
    var files, log := OnFiles(s, g), Min(g.memStart, SegmentStart(s, history));
    var r := Reopen(f, false, memMax, capacity, background);
    LogBounds(s, history);
    LayersAreMap(s, history, g);
    StructureTables(s);
    FallbackState(s, history, g);
    CrashView(f, history, memMax, capacity, background);
    forall key | AtRisk(f, history, files, log, key) ensures key in Replay(history) {
      RiskIsPut(f, history, files, log, key);
    }
    forall key | !AtRisk(f, history, files, log, key) ensures Read(View(r), key) == Read(View(s), key) {
      FallbackKept(s, history, g, key);
    }
    RiskReadsIff(f, r, s, history, files, log);
  }

  /** What is read after a crash: the table files, and over them the log files. */
  lemma CrashView(s: EngineState, history: seq<Entry>, memMax: nat, capacity: nat, background: bool)
    requires Structure(s) && LogInv(s.log, Recs(history))
    ensures var r := Reopen(s, false, memMax, capacity, background);
            TablesSorted(r.tables) && View(r) == TablesMap(TablesOnDisk(s.disk)) + LoggedContents(s)
  {
    hide Replay, TablesMap, Retained, LogInv, Sorted, DiskRecords, RunPuts, Ascending;
    ReopenMemtable(s, history, memMax, capacity);
    LogParts(s, history);
    DiskTablesSorted(s);
  }

  lemma FallbackKept(s: EngineState, history: seq<Entry>, g: Marks, key: ByteString)
    requires Layered(s, history, g) && Enabled(s, DoFallback)
    requires !AtRisk(Fallback(s), history, OnFiles(s, g), Min(g.memStart, SegmentStart(s, history)), key)
    ensures Read(TablesMap(TablesOnDisk(Fallback(s).disk)) + LoggedContents(Fallback(s)), key)
            == Read(Replay(history), key)
  {
    hide Replay, Structure, InFileOrder, LogInv, Retained, Fallback, TablesMap, TablesOnDisk, LoggedContents,
      BufferedContents, AtRisk, Between, Layers, Enabled;
    var f := Fallback(s);
    var files, mem, seg, upTo := OnFiles(s, g), g.memStart, SegmentStart(s, history), |history| - |s.log.pending|;
    LogBounds(s, history);
    FilesWithin(s, history, g);
    FallbackState(s, history, g);
    LogBounds(f, history);
    LogParts(f, history);
    RiskParts(f, history, files, Min(mem, seg), key);
    TwoSuffixesAt(history, mem, seg, upTo, key);
    OverFiles(Replay(history[..files]), Replay(history[mem..]), Replay(history[seg..upTo]),
              Replay(history[Min(mem, seg)..upTo]), key);
    KeyKept(history, files, Min(mem, seg), upTo, key);
  }

  lemma OverFiles(files: Contents, a: Contents, b: Contents, ab: Contents, key: ByteString)
    requires Find(a + b, key) == Find(ab, key)
    ensures Read(files + a + b, key) == Read(files + ab, key)
  {}

  /** A key not put after a position reads the same from two suffixes cut there. */
  lemma TwoSuffixesAt(history: seq<Entry>, a: nat, b: nat, upTo: nat, key: ByteString)
    requires a <= |history| && b <= upTo <= |history| && key !in Replay(history[upTo..])
    ensures var two := Replay(history[a..]) + Replay(history[b..upTo]);
            Find(two, key) == Find(Replay(history[Min(a, b)..upTo]), key)
  {
    hide Replay;
    var front := history[..upTo];
    if a <= upTo {
      CutTwice(history, a, upTo);
      ReplayConcat(history[a..upTo], history[upTo..]);
      assert front[a..] == history[a..upTo] && front[b..] == history[b..upTo];
      assert front[Min(a, b)..] == history[Min(a, b)..upTo];
      TwoSuffixes(front, a, b);
    } else {
      CutTwice(history, upTo, a);
      ReplayConcat(history[upTo..a], history[a..]);
    }
  }

  lemma FallbackViews(s: EngineState, history: seq<Entry>, g: Marks, clean: bool, memMax: nat, capacity: nat,
                      background: bool)
    requires Layered(s, history, g) && Enabled(s, DoFallback) && (clean || s.log.pending == [])
    ensures 0 <= SegmentStart(s, history) <= |history|
    ensures OnFiles(s, g) <= |history| && (s.results != [] ==> OnFiles(s, g) == g.memStart)
    ensures var r := Reopen(Fallback(s), clean, memMax, capacity, background);
            && TablesSorted(s.tables) && TablesSorted(r.tables)
            && View(s) == Replay(history)
            && View(r) == Replay(history[..OnFiles(s, g)])
                          + Replay(history[Min(g.memStart, SegmentStart(s, history))..])
  {
    hide Replay, Structure, InFileOrder, LogInv, Retained, Reopen, View, TablesOnDisk, TablesMap, Fallback, CleanLog;
    var f := Fallback(s);
    LogBounds(s, history);
    LayersAreMap(s, history, g);
    StructureTables(s);
    FallbackState(s, history, g);
    RestartView(f, history, clean, memMax, capacity, background);
    TwoSuffixes(history, g.memStart, SegmentStart(s, history));
    UnionAssociates(Replay(history[..OnFiles(s, g)]), Replay(history[g.memStart..]),
                    Replay(history[SegmentStart(s, history)..]));
  }

  /** The files and the log that a fallback leaves. */
  lemma FallbackState(s: EngineState, history: seq<Entry>, g: Marks)
    requires Layered(s, history, g) && Enabled(s, DoFallback)
    ensures var f := Fallback(s);
            && Structure(f) && LogInv(f.log, Recs(history)) && f.log.pending == s.log.pending
            && LogStart(f, history) == SegmentStart(s, history)
            && TablesMap(TablesOnDisk(f.disk)) == Replay(history[..OnFiles(s, g)]) + Replay(history[g.memStart..])
  {
    hide Replay, LogInv, Retained, TablesOnDisk, TablesMap, CleanLog, Sorted, Structure, InFileOrder;
    CleanMarks(s.log, Recs(history));
    FlushSyncKeeps(s);
    assert s.mem.data != map[] by { WaitingNonEmpty(s); }
    assert Fallback(s).log == CleanLog(s.log);
    NewestFile(s);
    ReopenTables(s, history, g);
  }

  lemma WaitingNonEmpty(s: EngineState)
    requires Structure(s) && s.waiting
    ensures s.mem.data != map[]
  {}

  /** The fallback's file takes the largest number, so at a restart it sorts last. */
  lemma NewestFile(s: EngineState)
    requires Structure(s) && s.mem.data != map[]
    ensures TablesMap(TablesOnDisk(FlushSync(s).disk)) == TablesMap(TablesOnDisk(s.disk)) + s.mem.data
  {
    hide Replay, TablesMap, Sorted, SortedEntries, CleanLog, Ascending;
    var f, entries := FlushSync(s), SortedEntries(s.mem.data);
    SortedEntriesCorrect(s.mem.data);
    assert f.disk == s.disk[s.counter := entries];
    assert s.counter !in s.disk;
    AscendingAppend(s.disk.Keys, s.counter);
    assert f.disk.Keys == s.disk.Keys + {s.counter};
    assert TablesOnDisk(f.disk) == TablesOnDisk(s.disk) + [Table(s.counter, entries)];
    TablesMapAppend(TablesOnDisk(s.disk), Table(s.counter, entries));
  }

  /** Of two suffixes of the history the longer decides. */
  lemma TwoSuffixes(history: seq<Entry>, a: nat, b: nat)
    requires a <= |history| && b <= |history|
    ensures Replay(history[a..]) + Replay(history[b..]) == Replay(history[Min(a, b)..])
  {
    hide Replay;
    if a <= b {
      CutTwice(history, a, b);
      ReplayConcat(history[a..b], history[b..]);
    } else {
      CutTwice(history, b, a);
      ReplayConcat(history[b..a], history[a..]);
    }
  }

  // ---------- a crash with records still buffered ----------

  /** A crash of a durable engine preserves every read exactly when, for every key with a buffered
      put, its last record in the log files has the buffered value, or there is no such record and
      the table files give it. Keys with no buffered put never change. */
  lemma CrashReadsIff(s: EngineState, history: seq<Entry>, g: Marks, memMax: nat, capacity: nat, background: bool)
    requires Durable(s, history, g)
    ensures var r := Reopen(s, false, memMax, capacity, background);
            var buffered := BufferedContents(s);
            && (forall key :: key !in buffered ==> Get(r, key) == Get(s, key))
            && (SameGets(r, s) <==> forall key :: key in buffered ==> DiskGives(s, key, buffered[key].value))
  {
    hide Layered, Reopen, Get, SameGets, DiskGives, BufferedContents, Replay, Retained;
    CrashReadsExactly(s, history, g, memMax, capacity, background);
    var files, log := OnFiles(s, g), LogStart(s, history);
    forall key
      ensures AtRisk(s, history, files, log, key) <==> key in BufferedContents(s)
      ensures key in BufferedContents(s) ==>
                key in Replay(history) && Replay(history)[key] == BufferedContents(s)[key]
    {
      OnlyBufferedAtRisk(s, history, g, key);
    }
  }

  lemma OnlyBufferedAtRisk(s: EngineState, history: seq<Entry>, g: Marks, key: ByteString)
    requires Durable(s, history, g)
    ensures AtRisk(s, history, OnFiles(s, g), LogStart(s, history), key) <==> key in BufferedContents(s)
    ensures key in BufferedContents(s) ==> key in Replay(history) && Replay(history)[key] == BufferedContents(s)[key]
  {
    hide Retained, BufferedContents, LoggedContents, LogInv, Structure, InFileOrder, TablesMap;
    LayersFit(s, history, g);
    LogParts(s, history);
    var upTo := |history| - |s.log.pending|;
    assert history == history[..upTo] + history[upTo..];
    ReplayConcat(history[..upTo], history[upTo..]);
  }

  /** The log files hold the middle of the history, and the buffer its end. */
  lemma LogParts(s: EngineState, history: seq<Entry>)
    requires LogInv(s.log, Recs(history))
    ensures 0 <= LogStart(s, history) && |s.log.pending| <= |Retained(s.log)|
    ensures LoggedContents(s) == Replay(OnDisk(s, history))
    ensures BufferedContents(s) == Replay(history[|history| - |s.log.pending|..])
  {
    hide Replay, DiskRecords, EntriesOf;
    LogBounds(s, history);
    var cut := |history| - |s.log.pending|;
    var retained := Recs(history)[LogStart(s, history)..];
    assert Retained(s.log) == retained;
    assert DiskRecords(s.log.files) == retained[..|retained| - |s.log.pending|] == Recs(OnDisk(s, history));
    assert s.log.pending == retained[|retained| - |s.log.pending|..] == Recs(history[cut..]);
    EntriesOfRecs(OnDisk(s, history));
    EntriesOfRecs(history[cut..]);
  }

  lemma LayersFit(s: EngineState, history: seq<Entry>, g: Marks)
    requires Durable(s, history, g)
    ensures 0 <= LogStart(s, history) <= OnFiles(s, g) <= |history|
    ensures LogStart(s, history) + |s.log.pending| <= |history|
  {
    LogBounds(s, history);
  }

  lemma ThreeLayers(history: seq<Entry>, files: nat, start: nat, cut: nat)
    requires start <= files <= |history| && start <= cut <= |history|
    ensures (Replay(history[..files]) + Replay(history[start..cut])) + Replay(history[cut..]) == Replay(history)
  {
    hide Replay;
    CutTwice(history, start, cut);
    ReplayConcat(history[start..cut], history[cut..]);
    ReplayOverlap(history, start, files);
    UnionAssociates(Replay(history[..files]), Replay(history[start..cut]), Replay(history[cut..]));
  }

  // ---------- runs that show it ----------

  const BIG: Entry := Entry([1], Zeros(60), 0)
  const SMALL: Entry := Entry([2], [], 0)
  const OTHER: Entry := Entry([3], [], 0)

  /** A memtable is frozen, and the log rotates twice before its table is registered. */
  function RotationRun(): seq<Label> {
    [DoLogLimit(1), DoPut(BIG), DoFreeze, DoPut(SMALL), DoPut(OTHER), DoWrite]
  }

  lemma TrackStep(start: EngineState, labels: seq<Label>, l: Label)
    ensures var t := Track(start, labels);
            Track(start, labels + [l]) == Tracked(Next(t.s, l), NextHistory(t.history, l), NextMarks(t, l))
    ensures SafeRun(start, labels) && SafeStep(Track(start, labels), l) ==> SafeRun(start, labels + [l])
  {
    assert (labels + [l])[..|labels|] == labels;
  }

  /** Appending to an unbuffered log whose segment limit is one byte. */
  lemma AppendUnbuffered(log: LogState, r: LogRecord)
    requires log.limit == 1 && log.capacity == 0 && log.pending == [] && Accepted(r.entry)
    requires log.active in log.files && log.active + 1 !in log.files
    ensures Append(log, r) ==
            if log.bytesWritten == 0
            then log.(files := log.files[log.active := log.files[log.active] + [r]], bytesWritten := RecordSize(r))
            else log.(files := log.files[log.active + 1 := [r]], active := log.active + 1,
                      bytesWritten := RecordSize(r))
  {
    assert [] + [r] == [r];
    var b := BeforeAppend(log);
    assert b.files[b.active] + [r] == if log.bytesWritten == 0 then log.files[log.active] + [r] else [r];
  }

  /** A put with nothing in flight to register. */
  lemma PutQuiet(s: EngineState, e: Entry)
    requires s.results == [] && s.background && Accepted(e)
    ensures PutEntry(s, e) == s.(log := Append(s.log, LogRecord(Records.Put, e)), mem := PutState(s.mem, e),
                                 waiting := s.waiting || PutState(s.mem, e).Full())
  {}

  /** The end of the run. */
  function RotationEnd(): Tracked {
    Track(NewEngine(100, 0, true), RotationRun())
  }

  /** Registering a table after the log rotated loses a put at the next restart: the run reaches a
      state where registering the table keeps the put readable, and restarting then does not. */
  lemma RotationLosesPut()
    ensures SafeRun(NewEngine(100, 0, true), RotationRun())
    ensures var t := RotationEnd();
            && t.s.results != []
            && var c := CompleteOne(t.s);
               Get(c, SMALL.key) == Some(SMALL.value) && Get(Reopen(c, false, 100, 0, true), SMALL.key) == None
  {
    hide Replay, Track, SafeRun, Durable, CompleteOne, Reopen, View, Get;
    RotationState();
    var t := RotationEnd();
    DurableRun(100, 0, true, RotationRun());
    DurableIsLayered(t.s, t.history, t.marks);
    CompletionViews(t.s, t.history, t.marks, 100, 0, true);
    var c := CompleteOne(t.s);
    GetIsView(c, SMALL.key);
    GetIsView(Reopen(c, false, 100, 0, true), SMALL.key);
    RotationMaps(t.history);
  }

  /** What is read after a registration, before and after a restart. */
  lemma CompletionViews(s: EngineState, history: seq<Entry>, g: Marks, memMax: nat, capacity: nat, background: bool)
    requires Layered(s, history, g) && s.results != [] && s.log.pending == []
    ensures var c := CompleteOne(s);
            var r := Reopen(c, false, memMax, capacity, background);
            && TablesSorted(c.tables) && TablesSorted(r.tables)
            && 0 <= SegmentStart(s, history) <= |history|
            && View(c) == Replay(history)
            && View(r) == Replay(history[..g.memStart]) + Replay(history[SegmentStart(s, history)..])
  {
    hide Replay, Structure, InFileOrder, LogInv, Retained, Reopen, CompleteOne, View, TablesOnDisk, TablesMap;
    var c := CompleteOne(s);
    var g' := g.(flushed := g.memStart);
    LogBounds(s, history);
    assert history[..|history|] == history;
    CompleteKeepsLayers(s, history, g, |history|);
    LayersAreMap(c, history, g');
    RestartView(c, history, false, memMax, capacity, background);
    ReopenTables(c, history, g');
    StructureTables(c);
  }

  lemma DurableIsLayered(s: EngineState, history: seq<Entry>, g: Marks)
    requires Durable(s, history, g)
    ensures Layered(s, history, g)
  {}

  lemma RotationMaps(history: seq<Entry>)
    requires history == [BIG, SMALL, OTHER]
    ensures Read(Replay(history), SMALL.key) == Some(SMALL.value)
    ensures Read(Replay(history[..1]) + Replay(history[2..]), SMALL.key) == None
  {
    assert history[..1] == [BIG] && history[2..] == [OTHER];
    assert history == ([BIG] + [SMALL]) + [OTHER];
    hide Replay;
    ReplayConcat([BIG] + [SMALL], [OTHER]);
    ReplayConcat([BIG], [SMALL]);
    ReplayOne(BIG);
    ReplayOne(SMALL);
    ReplayOne(OTHER);
  }

  lemma ReplayOne(e: Entry)
    ensures Replay([e]) == map[e.key := e.Ver()]
  {
    assert [e][..0] == [];
  }

  lemma RotationState()
    ensures SafeRun(NewEngine(100, 0, true), RotationRun())
    ensures var t := RotationEnd();
            && t.s.results != [] && t.s.log.pending == [] && t.history == [BIG, SMALL, OTHER] && t.marks.memStart == 1
            && SegmentStart(t.s, t.history) == 2
  {
    hide Append, SortedEntries, RunPuts, Track, SafeRun;
    var start := NewEngine(100, 0, true);
    FrozenBig(100);
    var t3 := FrozenEnd(100);
    AppendUnbuffered(t3.s.log, LogRecord(Records.Put, SMALL));
    PutQuiet(t3.s, SMALL);
    TrackStep(start, FrozenRun(), DoPut(SMALL));
    var l4 := FrozenRun() + [DoPut(SMALL)];
    var t4 := Track(start, l4);
    assert !t4.s.waiting;
    AppendUnbuffered(t4.s.log, LogRecord(Records.Put, OTHER));
    PutQuiet(t4.s, OTHER);
    TrackStep(start, l4, DoPut(OTHER));
    var l5 := l4 + [DoPut(OTHER)];
    TrackStep(start, l5, DoWrite);
    assert l5 + [DoWrite] == RotationRun();
    var t := Track(start, RotationRun());
    assert t.s.log.files[3] == [LogRecord(Records.Put, OTHER)] && t.s.log.active == 3;
  }

  function FrozenRun(): seq<Label> {
    [DoLogLimit(1), DoPut(BIG), DoFreeze]
  }

  /** The end of the run. */
  function FrozenEnd(memMax: nat): Tracked {
    Track(NewEngine(memMax, 0, true), FrozenRun())
  }

  /** One put, frozen at once, in an unbuffered log with segments of one record. */
  lemma FrozenBig(memMax: nat)
    requires memMax <= 109
    ensures SafeRun(NewEngine(memMax, 0, true), FrozenRun())
    ensures var t := FrozenEnd(memMax);
            var s := t.s;
            && t.history == [BIG] && t.marks == Marks(0, 1, 0, 1)
            && s.log.files == map[1 := [LogRecord(Records.Put, BIG)]] && s.log.active == 1 && s.log.pending == []
            && s.log.limit == 1 && s.log.capacity == 0 && s.log.bytesWritten == RecordSize(LogRecord(Records.Put, BIG))
            && s.mem == EmptyState(memMax) && s.frozen.Some? && s.results == [] && !s.waiting && s.background
            && |s.queue| == 1 && s.memMax == memMax
  {
    hide Append, SortedEntries, RunPuts, Track, SafeRun;
    var start := NewEngine(memMax, 0, true);
    TrackNothing(start);
    TrackStep(start, [], DoLogLimit(1));
    var l1 := [] + [DoLogLimit(1)];
    var t1 := Track(start, l1);
    AppendUnbuffered(t1.s.log, LogRecord(Records.Put, BIG));
    PutQuiet(t1.s, BIG);
    TrackStep(start, l1, DoPut(BIG));
    var l2 := l1 + [DoPut(BIG)];
    assert [] + [LogRecord(Records.Put, BIG)] == [LogRecord(Records.Put, BIG)];
    assert Track(start, l2).s.waiting && Track(start, l2).s.frozen.None?;
    TrackStep(start, l2, DoFreeze);
    assert l2 + [DoFreeze] == FrozenRun();
    var t := Track(start, FrozenRun());
    assert [] + [BIG] == [BIG];
  }

  lemma TrackNothing(start: EngineState)
    ensures Track(start, []) == Tracked(start, [], Marks(0, 0, 0, 0)) && SafeRun(start, [])
  {}

  /** A put is frozen, the log rotates, and the wait for its flush runs out. */
  function FallbackRun(): seq<Label> {
    [DoLogLimit(1), DoPut(BIG), DoFreeze, DoPut(SMALL)]
  }

  /** The end of the run. */
  function FallbackEnd(): Tracked {
    Track(NewEngine(0, 0, true), FallbackRun())
  }

  lemma FallbackRunState()
    ensures SafeRun(NewEngine(0, 0, true), FallbackRun())
    ensures var t := FallbackEnd();
            && t.s.results == [] && t.s.log.pending == [] && t.history == [BIG, SMALL]
            && Enabled(t.s, DoFallback) && t.marks == Marks(0, 1, 0, 1) && SegmentStart(t.s, t.history) == 1
  {
    hide Append, SortedEntries, RunPuts, Track, SafeRun;
    var start := NewEngine(0, 0, true);
    FrozenBig(0);
    var t3 := FrozenEnd(0);
    AppendUnbuffered(t3.s.log, LogRecord(Records.Put, SMALL));
    PutQuiet(t3.s, SMALL);
    TrackStep(start, FrozenRun(), DoPut(SMALL));
    assert FrozenRun() + [DoPut(SMALL)] == FallbackRun();
    var t := Track(start, FallbackRun());
    assert t.s.log.files[2] == [LogRecord(Records.Put, SMALL)] && t.s.log.active == 2;
  }

  /** A fallback deletes the log segments of the frozen memtable before its file is written: a crash
      then loses its puts. */
  lemma FallbackLosesPut()
    ensures SafeRun(NewEngine(0, 0, true), FallbackRun())
    ensures var t := FallbackEnd();
            && Enabled(t.s, DoFallback)
            && Get(t.s, BIG.key) == Some(BIG.value)
            && Get(Reopen(Fallback(t.s), false, 0, 0, true), BIG.key) == None
  {
    hide Replay, Track, SafeRun, Durable, Fallback, Reopen, View, Get, Enabled;
    FallbackRunState();
    var t := FallbackEnd();
    DurableRun(0, 0, true, FallbackRun());
    DurableIsLayered(t.s, t.history, t.marks);
    FallbackViews(t.s, t.history, t.marks, false, 0, 0, true);
    GetIsView(t.s, BIG.key);
    GetIsView(Reopen(Fallback(t.s), false, 0, 0, true), BIG.key);
    FallbackMaps(t.history);
  }

  lemma FallbackMaps(history: seq<Entry>)
    requires history == [BIG, SMALL]
    ensures Read(Replay(history), BIG.key) == Some(BIG.value)
    ensures Read(Replay(history[..0]) + Replay(history[1..]), BIG.key) == None
  {
    assert history[..0] == [] && history[1..] == [SMALL];
    assert history == [BIG] + [SMALL];
    ReplayConcat([BIG], [SMALL]);
    ReplayOne(BIG);
    ReplayOne(SMALL);
  }

  const OLD: Entry := Entry([], [7], 0)
  const NEW: Entry := Entry([], [8, 8], 0)

  /** The first put reaches the log file; the second fills the memtable and is flushed to a table
      while its record is still buffered. */
  function BufferedRun(): seq<Label> {
    [DoPut(OLD), DoLogFlush, DoPut(NEW)]
  }

  /** Appending to a log with room in the segment and in the buffer. */
  lemma AppendBuffered(log: LogState, r: LogRecord)
    requires log.bytesWritten < log.limit && log.pending == [] && Accepted(r.entry) && RecordSize(r) < log.capacity
    ensures Append(log, r) == log.(pending := [r], bytesWritten := log.bytesWritten + RecordSize(r))
  {
    SizeOfOne(r);
    hide SizeOf, RecordSize, Accepted;
    assert log.pending + [r] == [r];
  }

  lemma SizeOfOne(r: LogRecord)
    ensures SizeOf([r]) == RecordSize(r)
  {
    hide RecordSize;
    assert [r][..0] == [];
  }

  /** A synchronous put, flushed at once when it fills the memtable. */
  lemma PutSync(s: EngineState, e: Entry)
    requires s.results == [] && !s.background && Accepted(e)
    ensures var stored := s.(log := Append(s.log, LogRecord(Records.Put, e)), mem := PutState(s.mem, e));
            PutEntry(s, e) == if PutState(s.mem, e).Full() then FlushSync(stored) else stored
  {}

  /** The end of the run. */
  function BufferedEnd(): Tracked {
    Track(NewEngine(50, 1000, false), BufferedRun())
  }

  lemma BufferedState()
    ensures SafeRun(NewEngine(50, 1000, false), BufferedRun())
    ensures var t := BufferedEnd();
            && t.s.results == [] && |t.s.log.pending| == 1 && t.history == [OLD, NEW] && t.marks.flushed == 2
            && SegmentStart(t.s, t.history) == 0
  {
    hide Append, SortedEntries, Track, SafeRun;
    var start := NewEngine(50, 1000, false);
    LoggedOld();
    var t2 := LoggedEnd();
    AppendBuffered(t2.s.log, LogRecord(Records.Put, NEW));
    PutSync(t2.s, NEW);
    TrackStep(start, LoggedRun(), DoPut(NEW));
    assert LoggedRun() + [DoPut(NEW)] == BufferedRun();
    var t := Track(start, BufferedRun());
  }

  function LoggedRun(): seq<Label> {
    [DoPut(OLD), DoLogFlush]
  }

  /** The end of the run. */
  function LoggedEnd(): Tracked {
    Track(NewEngine(50, 1000, false), LoggedRun())
  }

  /** The first put, its record in the log file. */
  lemma LoggedOld()
    ensures SafeRun(NewEngine(50, 1000, false), LoggedRun())
    ensures var t := LoggedEnd();
            var s := t.s;
            && t.history == [OLD] && t.marks == Marks(0, 0, 0, 0)
            && s.log.files == map[1 := [LogRecord(Records.Put, OLD)]] && s.log.active == 1 && s.log.pending == []
            && s.log.capacity == 1000 && s.log.bytesWritten == RecordSize(LogRecord(Records.Put, OLD))
            && s.log.limit == DEFAULT_SEGMENT_SIZE
            && s == NewEngine(50, 1000, false).(log := s.log, mem := PutState(EmptyState(50), OLD))
  {
    hide Append, SortedEntries, Track, SafeRun;
    var start := NewEngine(50, 1000, false);
    TrackNothing(start);
    AppendBuffered(start.log, LogRecord(Records.Put, OLD));
    PutSync(start, OLD);
    TrackStep(start, [], DoPut(OLD));
    var l1 := [] + [DoPut(OLD)];
    assert Track(start, l1).s.log.pending == [LogRecord(Records.Put, OLD)];
    TrackStep(start, l1, DoLogFlush);
    assert l1 + [DoLogFlush] == LoggedRun();
    var t := Track(start, LoggedRun());
    assert [] + [LogRecord(Records.Put, OLD)] == [LogRecord(Records.Put, OLD)];
    assert [] + [OLD] == [OLD];
  }

  /** A crash with a buffered record brings back an overwritten value, even though the newer value
      is in a table: the older record in the log is replayed over it. */
  lemma BufferedCrashIsStale()
    ensures SafeRun(NewEngine(50, 1000, false), BufferedRun())
    ensures var t := BufferedEnd();
            && Get(t.s, NEW.key) == Some(NEW.value)
            && Get(Reopen(t.s, false, 50, 1000, false), NEW.key) == Some(OLD.value)
  {
    hide Track, SafeRun, Durable, Reopen, Get, Replay, View;
    BufferedState();
    DurableRun(50, 1000, false, BufferedRun());
    ReplayedOver(BufferedEnd());
  }

  /** The table holds both puts, the log file the first: the first is replayed over the second. */
  lemma ReplayedOver(t: Tracked)
    requires Durable(t.s, t.history, t.marks) && View(t.s) == Replay(t.history)
    requires t.s.results == [] && |t.s.log.pending| == 1 && t.history == [OLD, NEW] && t.marks.flushed == 2
    requires SegmentStart(t.s, t.history) == 0
    ensures Get(t.s, NEW.key) == Some(NEW.value)
    ensures Get(Reopen(t.s, false, 50, 1000, false), NEW.key) == Some(OLD.value)
  {
    hide Replay, Structure, InFileOrder, LogInv, Layers, Reopen, View, Get;
    var r := Reopen(t.s, false, 50, 1000, false);
    LogBounds(t.s, t.history);
    ReopenView(t.s, t.history, t.marks, 50, 1000, false);
    ReopenStructure(t.s, 50, 1000, false);
    StructureTables(r);
    StructureTables(t.s);
    GetIsView(r, NEW.key);
    GetIsView(t.s, NEW.key);
    assert OnDisk(t.s, t.history) == [OLD];
    BufferedMaps();
  }

  lemma BufferedMaps()
    ensures Read(Replay([OLD, NEW]), NEW.key) == Some(NEW.value)
    ensures Read(Replay([OLD, NEW][..2]) + Replay([OLD]), NEW.key) == Some(OLD.value)
  {
    hide Replay;
    assert [OLD, NEW] == [OLD] + [NEW] && [OLD, NEW][..2] == [OLD, NEW];
    ReplayConcat([OLD], [NEW]);
    ReplayOne(OLD);
    ReplayOne(NEW);
  }

  function StaleRun(): seq<Label> {
    [DoPut(OLD), DoFreeze, DoPut(NEW)]
  }

  /** The end of the run. */
  function StaleEnd(): EngineState {
    Exec(NewEngine(0, 0, true), StaleRun()).0
  }

  /** A fallback flush puts the newer value under the frozen older one: the read goes back. */
  lemma FallbackIsStale()
    ensures ReadableRun(NewEngine(0, 0, true), StaleRun())
    ensures var s := StaleEnd();
            && Enabled(s, DoFallback)
            && Get(s, NEW.key) == Some(NEW.value) && Get(Fallback(s), NEW.key) == Some(OLD.value)
  {
    hide Append, SortedEntries, RunPuts, TablesGet;
    var s0 := NewEngine(0, 0, true);
    PutQuiet(s0, OLD);
    var s1 := PutEntry(s0, OLD);
    var s2 := Freeze(s1);
    RefillRestores(s1.mem.data, 0);
    PutQuiet(s2, NEW);
    var s := PutEntry(s2, NEW);
    ExecStep(s0, [], DoPut(OLD));
    ExecStep(s0, [] + [DoPut(OLD)], DoFreeze);
    ExecStep(s0, [] + [DoPut(OLD)] + [DoFreeze], DoPut(NEW));
    assert [] + [DoPut(OLD)] + [DoFreeze] + [DoPut(NEW)] == StaleRun();
  }

  lemma ExecStep(start: EngineState, labels: seq<Label>, l: Label)
    ensures Exec(start, labels + [l]) == (Next(Exec(start, labels).0, l), NextHistory(Exec(start, labels).1, l))
    ensures ReadableRun(start, labels) && Enabled(Exec(start, labels).0, l) && !l.DoReopen? && !l.DoFallback?
            && !l.DoCompact? && !l.DoCompactingPut?
            ==> ReadableRun(start, labels + [l])
  {
    assert (labels + [l])[..|labels|] == labels;
  }
}
