/** What readers see over every run without restarts (src/storage_engine.rs): the last put of every key,
    and exactly when the fallback keeps it so. */
module EngineRuns {
  import opened Entries
  import opened WalLog
  import opened Tables
  import opened CompactionReads
  import opened EngineModel

  // ---------- the fallback ----------

  /** Keys present in both memtables have the same value in both. */
  ghost predicate MemtablesAgree(s: EngineState) {
    forall key :: key in s.mem.data && key in FrozenMap(s) ==> s.mem.data[key].value == FrozenMap(s)[key].value
  }

  /** The fallback leaves every read unchanged exactly when the two memtables agree. */
  lemma FallbackReadsIff(s: EngineState)
    requires Structure(s) && Enabled(s, DoFallback)
    ensures Structure(Fallback(s))
    ensures SameReads(View(Fallback(s)), View(s)) <==> MemtablesAgree(s)
  {
    hide SortedEntries, Replay, TablesMap, Sorted, FlushSync, Structure;
    FlushSyncKeeps(s);
    var before, after := View(s), View(Fallback(s));
    assert after == TablesMap(s.tables) + s.mem.data + FrozenMap(s);
    if SameReads(after, before) {
      forall key | key in s.mem.data && key in FrozenMap(s)
        ensures s.mem.data[key].value == FrozenMap(s)[key].value
      {
        assert Read(after, key) == Read(before, key);
      }
    }
  }

  // ---------- reads over every run ----------

  function Exec(start: EngineState, labels: seq<Label>): (EngineState, seq<Entry>) {
    if labels == [] then (start, [])
    else
      var (s, history) := Exec(start, labels[..|labels| - 1]);
      (Next(s, labels[|labels| - 1]), NextHistory(history, labels[|labels| - 1]))
  }

  /** Only registered tables are chosen, and their compaction is safe. */
  ghost predicate Compactable(s: EngineState, inputs: seq<nat>) {
    OnlyRegistered(s, inputs) && CompactionSafe(s.tables, IdSet(inputs))
  }

  /** Every step is enabled, no reopening, any fallback is taken with agreeing memtables, and every
      compaction is safe. */
  ghost predicate ReadableRun(start: EngineState, labels: seq<Label>) {
    labels == [] ||
    (var front, l := labels[..|labels| - 1], labels[|labels| - 1];
     var s := Exec(start, front).0;
     && ReadableRun(start, front) && Enabled(s, l) && !l.DoReopen?
     && (l.DoFallback? ==> MemtablesAgree(s))
     && (l.DoCompact? ==> Compactable(s, l.inputs))
     && (l.DoCompactingPut? ==> Compactable(Complete(Logged(s, l.entry)), l.inputs)))
  }

  lemma NewEngineStructure(memMax: nat, capacity: nat, background: bool)
    ensures Structure(NewEngine(memMax, capacity, background))
    ensures View(NewEngine(memMax, capacity, background)) == map[]
  {}

  /** In every reachable interleaving of puts, freezes, background writes, completions, agreeing
      fallbacks and safe compactions, a read returns the value of the last put of the key, and the frozen memtable is
      present exactly while a flush with the same contents is in flight. */
  lemma {:induction false} ReadsRefineMap(memMax: nat, capacity: nat, background: bool, labels: seq<Label>)
    requires ReadableRun(NewEngine(memMax, capacity, background), labels)
    ensures var (s, history) := Exec(NewEngine(memMax, capacity, background), labels);
            && Structure(s)
            && forall key :: Get(s, key) == Read(Replay(history), key)
  {
    var start := NewEngine(memMax, capacity, background);
    ViewRefinesMap(memMax, capacity, background, labels);
    var s := Exec(start, labels).0;
    forall key ensures Get(s, key) == Read(Replay(Exec(start, labels).1), key) {
      GetIsView(s, key);
      assert Read(View(s), key) == Read(Replay(Exec(start, labels).1), key);
    }
  }

  lemma {:induction false} ViewRefinesMap(memMax: nat, capacity: nat, background: bool, labels: seq<Label>)
    requires ReadableRun(NewEngine(memMax, capacity, background), labels)
    ensures var (s, history) := Exec(NewEngine(memMax, capacity, background), labels);
            Structure(s) && SameReads(View(s), Replay(history))
  {
    hide Structure, View, PutEntry, Complete, Freeze, Fallback, BackgroundWrite, CompactingPut, Compact, CanCompact,
      CompactionSafe, Logged;
    var start := NewEngine(memMax, capacity, background);
    if labels == [] {
      NewEngineStructure(memMax, capacity, background);
    } else {
      var front, l := labels[..|labels| - 1], labels[|labels| - 1];
      ViewRefinesMap(memMax, capacity, background, front);
      var (s, history) := Exec(start, front);
      match l {
        case DoPut(e) =>
          PutKeeps(s, e);
          ReplayAppend(history, e);
          UpdateReads(View(s), Replay(history), e);
        case DoCompactingPut(e, inputs, out) =>
          CompactingPutKeeps(s, e, inputs, out);
          ReplayAppend(history, e);
          UpdateReads(View(s), Replay(history), e);
        case DoCompact(inputs, out) => CompactKeeps(s, inputs, out);
        case DoPoll => CompleteKeeps(s);
        case DoWrite => WriteKeeps(s);
        case DoFreeze => FreezeKeeps(s);
        case DoFallback => FallbackReadsIff(s);
        case DoLogFlush => LogOnly(s, Flush(s.log));
        case DoLogLimit(n) => LogOnly(s, s.log.(limit := n));
      }
    }
  }

  lemma CompactingPutKeeps(s: EngineState, e: Entry, inputs: seq<nat>, out: seq<Entry>)
    requires Structure(s) && Enabled(s, DoCompactingPut(e, inputs, out))
    requires Compactable(Complete(Logged(s, e)), inputs)
    ensures Structure(CompactingPut(s, e, inputs, out))
    ensures SameReads(View(CompactingPut(s, e, inputs, out)), View(s)[e.key := e.Ver()])
  {
    hide Structure, View, Complete, StoreEntry, Logged, Compact, CanCompact, CompactionSafe;
    LoggedKeeps(s, e);
    CompleteKeeps(Logged(s, e));
    var drained := Complete(Logged(s, e));
    CompactKeeps(drained, inputs, out);
    StoreKeeps(Compact(drained, inputs, out), e);
    UpdateReads(View(Compact(drained, inputs, out)), View(s), e);
  }

  lemma UpdateReads(a: Contents, b: Contents, e: Entry)
    requires SameReads(a, b)
    ensures SameReads(a[e.key := e.Ver()], b[e.key := e.Ver()])
  {
    var a', b' := a[e.key := e.Ver()], b[e.key := e.Ver()];
    forall key ensures Read(a', key) == Read(b', key) {
      assert Read(a, key) == Read(b, key);
    }
  }
}
