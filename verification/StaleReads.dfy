/** Runs of the engine that end in stale or failing scans and compactions (src/storage_engine.rs,
    src/compaction.rs), on files that the selection chooses. */
module StaleReads {
  import opened Bytes
  import opened Results
  import opened Entries
  import opened Varints
  import opened Blocks
  import opened Blooms
  import opened Formats
  import opened Records
  import opened Memtables
  import opened Tables
  import opened Merges
  import opened CompactionReads
  import opened EngineModel
  import opened EngineRuns
  import opened EngineScan
  import opened Losses
  import opened TableLayout
  import opened EngineFiles
  import Selection

  // ---------- one table a put ----------

  function Puts(puts: seq<Entry>): (labels: seq<Label>)
    ensures |labels| == |puts|
  {
    seq(|puts|, i requires 0 <= i < |puts| => DoPut(puts[i]))
  }

  function OneEach(puts: seq<Entry>): (tables: seq<Table>)
    ensures |tables| == |puts| && forall i :: 0 <= i < |puts| ==> tables[i] == Table(i + 1, [puts[i]])
  {
    seq(|puts|, i requires 0 <= i < |puts| => Table(i + 1, [puts[i]]))
  }

  /** Every put so far has been flushed to a table of its own. */
  ghost predicate EachFlushed(s: EngineState, puts: seq<Entry>) {
    && s.tables == OneEach(puts) && s.mem == EmptyState(0) && s.frozen.None? && s.results == []
    && s.memMax == 0 && !s.background && !s.waiting && s.counter == |puts| + 1
    && Registered(s.tables, s.disk)
  }

  /** A synchronous engine with a memtable limit of zero, after the puts. */
  function After(puts: seq<Entry>): EngineState {
    Exec(NewEngine(0, 0, false), Puts(puts)).0
  }

  ghost predicate Reachable(puts: seq<Entry>) {
    ReadableRun(NewEngine(0, 0, false), Puts(puts))
  }

  /** Such an engine flushes every put at once. */
  lemma {:induction false} EachPutFlushed(puts: seq<Entry>)
    requires AllAcceptedPuts(puts)
    ensures Reachable(puts) && EachFlushed(After(puts), puts)
  {
    if puts != [] {
      hide PutEntry, Accepted, EachFlushed, Reachable, After;
      var n := |puts| - 1;
      assert puts == puts[..n] + [puts[n]];
      EachPutFlushed(puts[..n]);
      ReachOneMore(puts[..n], puts[n]);
      FlushOne(After(puts[..n]), puts[..n], puts[n]);
    }
  }

  lemma ReachOneMore(puts: seq<Entry>, e: Entry)
    requires Reachable(puts) && EachFlushed(After(puts), puts)
    ensures Reachable(puts + [e]) && After(puts + [e]) == PutEntry(After(puts), e)
  {
    hide PutEntry, ReadableRun, Exec;
    ExecStep(NewEngine(0, 0, false), Puts(puts), DoPut(e));
    assert Puts(puts + [e]) == Puts(puts) + [DoPut(e)];
  }

  lemma FlushOne(s: EngineState, puts: seq<Entry>, e: Entry)
    requires EachFlushed(s, puts) && Accepted(e)
    ensures EachFlushed(PutEntry(s, e), puts + [e])
  {
    hide WalLog.Append, SortedEntries, Accepted, CleanLog;
    PutSync(s, e);
    OneEntryMap(e);
    var t := PutEntry(s, e);
    assert PutState(s.mem, e).data == map[e.key := e.Ver()] != map[];
    assert t.tables == OneEach(puts) + [Table(s.counter, [e])] == OneEach(puts + [e]);
    assert t.disk == s.disk[s.counter := [e]];
    assert forall i :: 0 <= i < |s.tables| ==> t.tables[i] == s.tables[i];
  }

  lemma OneEntryMap(e: Entry)
    ensures SortedEntries(map[e.key := e.Ver()]) == [e]
    ensures map[e.key := e.Ver()] != map[]
  {
    ReplayOne(e);
    assert Sorted([e]);
    SortedListUnique([e]);
    assert e.key in map[e.key := e.Ver()];
  }

  // ---------- a scan ----------

  const OLDER: Entry := Entry([1], [7], 5)
  const NEWER: Entry := Entry([1], [8], 5)

  /** Two puts of a key in the same second: the point read takes the second, the scan the first. */
  lemma TiedScanIsStale()
    ensures Reachable([OLDER, NEWER])
    ensures var s := After([OLDER, NEWER]);
            var r := Scan(s, [1], [2]);
            && Get(s, [1]) == Some(NEWER.value)
            && r.Ok? && Lookup(r.value, [1]) == Some(OLDER.Ver())
            && !ScanSafe(s, [1], [2])
  {
    EachPutFlushed([OLDER, NEWER]);
    var s := After([OLDER, NEWER]);
    hide Reachable, After, Scan, LayersOf, ScanKeeps, ReadTakes, Get, ScanAnswer, BestLayer, View;
    TiedLayers(s);
    AllSorted([OLDER, NEWER]);
    AnswersCompared(s, [1], 2, 3);
    ScanExact(s, [1], [2]);
    assert Lookup(Scan(s, [1], [2]).value, [1]) == ScanAnswer(s, [1], [2], [1]);
  }

  lemma TiedLayers(s: EngineState)
    requires EachFlushed(s, [OLDER, NEWER])
    ensures ScanKeeps(LayersOf(s), [1], 2) && ReadTakes(LayersOf(s), [1], 3)
    ensures |LayersOf(s)| == 4 && KeptAndTaken(LayersOf(s), [1], 2, 3)
    ensures LayersOf(s)[2][[1]] == OLDER.Ver() && LayersOf(s)[3][[1]] == NEWER.Ver()
    ensures InRange([1], [1], [2], false)
    ensures ScanAnswer(s, [1], [2], [1]) == BestLayer(LayersOf(s), [1])
  {
    hide Replay, BestLayer;
    ReplayOne(OLDER);
    ReplayOne(NEWER);
    assert LayersOf(s) == [map[], map[], Replay([OLDER]), Replay([NEWER])];
  }

  lemma AllSorted(puts: seq<Entry>)
    ensures TablesSorted(OneEach(puts))
  {}

  // ---------- the files and the selection ----------

  /** The size of the file of a table with one entry. */
  function FileSize(p: Params, e: Entry): nat
    requires p.numBits > 0
  {
    |FileFor(p, Table(1, [e]))|
  }

  /** Header, filter, index and footer are not compressed; the block is. */
  lemma OneEntrySize(p: Params, e: Entry)
    requires p.numBits > 0
    ensures FileSize(p, e) == 150 + BytesFor(p.numBits) + |e.key| + |BlockBytes(p.codec, [e])|
  {
    hide LittleEndian, AddKeys, HeaderBytes, FooterBytes, BlockBytes;
    OneBlock(e);
    var blocks := [[e]];
    assert blocks[1..] == [];
    assert Flatten(blocks) == [e] + [] == [e];
    var parts := AllBlockBytes(p.codec, blocks);
    assert parts == [BlockBytes(p.codec, [e])] && parts[..0] == [];
    assert Join(parts) == [] + BlockBytes(p.codec, [e]);
    var index := IndexOf(p.codec, blocks);
    assert |index| == 1 && index[1..] == [] && index[0].firstKey == e.key;
    assert IndexBytes(index) == IndexEntryBytes(index[0]) + [];
  }

  function PathOf(id: nat): string
    requires id < 10
  {
    "00000" + [(48 + id) as char] + ".sst"
  }

  /** The files of the tables, with their sizes. */
  function SizedFiles(p: Params, tables: seq<Table>): (fs: seq<Selection.Sized>)
    requires p.numBits > 0 && forall i :: 0 <= i < |tables| ==> tables[i].id < 10
    ensures |fs| == |tables|
  {
    seq(|tables|, i requires 0 <= i < |tables| => Selection.Sized(PathOf(tables[i].id), |FileFor(p, tables[i])|))
  }

  function Listed(fs: seq<Selection.Sized>): (files: seq<Selection.Candidate>)
    ensures |files| == |fs|
  {
    seq(|fs|, i requires 0 <= i < |fs| => Selection.Candidate(fs[i].path, Some(fs[i].size)))
  }

  lemma {:induction false} MeasuredListed(fs: seq<Selection.Sized>)
    ensures Selection.Measured(Listed(fs)) == fs
  {
    if fs != [] {
      MeasuredListed(fs[1..]);
      assert Listed(fs)[1..] == Listed(fs[1..]);
    }
  }

  /** Whatever selection is made of the files, with at least four, takes exactly these. */
  ghost predicate OnlyChoice(files: seq<Selection.Sized>, chosen: seq<Selection.Sized>) {
    forall paths :: Selection.IsBestSelection(Listed(files), 4, paths) ==>
      exists group :: paths == Selection.Paths(group) && multiset(group) == multiset(chosen)
  }

  /** The selection, given the files of these tables, chooses the tables 1 to 4. */
  ghost predicate ChoosesFour(p: Params, tables: seq<Table>) {
    && p.numBits > 0 && 4 <= |tables| < 10
    && (forall i :: 0 <= i < |tables| ==> tables[i].id == i + 1)
    && var files := SizedFiles(p, tables);
       OnlyChoice(files, files[..4])
  }

  /** Four files of similar size are chosen, and a fifth only if it is similar too. */
  lemma FourChosen(four: seq<Selection.Sized>, rest: seq<Selection.Sized>)
    requires |four| == 4 && |rest| <= 1 && Selection.Qualifies(multiset(four), 4)
    requires forall f, g :: f in four && g in rest ==> !Selection.Within(f.size, g.size)
    ensures OnlyChoice(four + rest, four)
  {
    hide Selection.Within;
    var files := four + rest;
    MeasuredListed(files);
    assert multiset(files) == multiset(four) + multiset(rest);
    forall paths | Selection.IsBestSelection(Listed(files), 4, paths)
      ensures exists group :: paths == Selection.Paths(group) && multiset(group) == multiset(four)
    {
      var group: seq<Selection.Sized> :|
        && paths == Selection.Paths(group)
        && (group != [] ==> Selection.Qualifies(multiset(group), 4))
        && multiset(group) <= multiset(files)
        && Selection.NoneBetter(Listed(files), 4, group);
      assert multiset(four) <= multiset(files);
      assert |multiset(four)| <= |group|;
      GroupIsFour(four, rest, multiset(group));
    }
  }

  lemma GroupIsFour(four: seq<Selection.Sized>, rest: seq<Selection.Sized>, group: multiset<Selection.Sized>)
    requires |four| == 4 && |rest| <= 1 && |group| >= 4
    requires Selection.Qualifies(group, 4) && group <= multiset(four) + multiset(rest)
    requires forall f, g :: f in four && g in rest ==> !Selection.Within(f.size, g.size)
    ensures group == multiset(four)
  {
    var f := SomeOfFour(four, rest, group);
    assert forall g :: g in group ==> Selection.Within(f.size, g.size);
    assert forall g :: g in rest ==> !Selection.Within(f.size, g.size);
    forall g ensures group[g] <= multiset(four)[g] {
      assert g in rest <==> g in multiset(rest);
    }
    assert multiset(four) == group + (multiset(four) - group);
  }

  lemma SomeOfFour(four: seq<Selection.Sized>, rest: seq<Selection.Sized>, group: multiset<Selection.Sized>)
    returns (f: Selection.Sized)
    requires |rest| <= 1 && |group| >= 4 && group <= multiset(four) + multiset(rest)
    ensures f in group && f in four
  {
    if forall f :: f in group ==> f !in four {
      forall f | f in group ensures group[f] <= multiset(rest)[f] {
        assert f in four <==> f in multiset(four);
      }
      Selection.SubMultisetSize(group, multiset(rest));
      assert false;
    }
    f :| f in group && f in four;
  }

  lemma SizesOf(p: Params, puts: seq<Entry>)
    requires p.numBits > 0 && |puts| < 10
    ensures forall i :: 0 <= i < |puts| ==> SizedFiles(p, OneEach(puts))[i].size == FileSize(p, puts[i])
  {}

  // ---------- compactions ----------

  const FOUR: seq<nat> := [1, 2, 3, 4]

  function Singles(puts: seq<Entry>): (lists: seq<seq<Entry>>)
    ensures |lists| == |puts| && forall i :: 0 <= i < |puts| ==> lists[i] == [puts[i]]
  {
    seq(|puts|, i requires 0 <= i < |puts| => [puts[i]])
  }

  /** Compacting the tables of the first four puts. */
  lemma CompactFour(s: EngineState, puts: seq<Entry>, out: seq<Entry>)
    requires EachFlushed(s, puts) && |puts| >= 4
    requires forall i :: 0 <= i < 4 ==> !Less(ScanBound(), puts[i].key)
    requires IsMerge(Singles(puts[..4]), out)
    ensures CanCompact(s, FOUR, out) && Enabled(s, DoCompact(FOUR, out))
  {
    hide IsMerge, Less, Range;
    FourFiles(s, puts);
    var files := TablesIn(s.disk, FOUR);
    forall i | 0 <= i < 4 ensures ScansOf(files)[i] == Scanned([puts[i]]) {
      ScanCompleteIff([puts[i]]);
    }
    assert Inputs(ScansOf(files)) == Singles(puts[..4]);
  }

  lemma FourFiles(s: EngineState, puts: seq<Entry>)
    requires EachFlushed(s, puts) && |puts| >= 4
    ensures forall id :: id in FOUR ==> id in s.disk && Table(id, s.disk[id]) in s.tables
    ensures TablesIn(s.disk, FOUR) == OneEach(puts[..4])
  {
    forall id | id in FOUR ensures id in s.disk && Table(id, s.disk[id]) in s.tables && s.disk[id] == [puts[id - 1]] {
      assert s.tables[id - 1] == Table(id, [puts[id - 1]]);
    }
    assert forall i :: 0 <= i < 4 ==> FOUR[i] in FOUR;
  }

  /** Of entries with one key, any with the newest timestamp is a merge. */
  lemma OneKeyMerge(puts: seq<Entry>, i: nat)
    requires i < |puts| && forall k :: 0 <= k < |puts| ==> puts[k].key == puts[i].key
    requires forall k :: 0 <= k < |puts| ==> puts[k].timestamp <= puts[i].timestamp
    ensures IsMerge(Singles(puts), [puts[i]])
  {
    hide Less;
    var lists, out := Singles(puts), [puts[i]];
    assert lists[i][0] == out[0];
    forall k, a | 0 <= k < |lists| && 0 <= a < |lists[k]| ensures Covered(out, lists[k][a]) {
      assert out[0].key == lists[k][a].key;
    }
  }

  lemma LastTableDecides(s: EngineState, tables: seq<Table>, id: nat, e: Entry)
    requires s.tables == tables + [Table(id, [e])] && s.mem.data == map[] && s.frozen.None?
    ensures Get(s, e.key) == Some(e.value)
  {}

  /** A key of one byte is scanned. */
  lemma ShortKeyScanned(key: ByteString)
    requires |key| <= 1024
    ensures !Less(ScanBound(), key)
  {
    PastBoundIff(key);
  }

  function GrownPuts(first: Entry, second: Entry): seq<Entry> {
    [first, first, first, first, second]
  }

  /** Four tables are chosen, and a newer one whose file is more than one and a half times as large is
      not: their output hides it. */
  lemma UnchosenNewerIsHidden(p: Params, first: Entry, second: Entry)
    requires p.numBits > 0 && Accepted(first) && Accepted(second) && first.key == second.key && |first.key| <= 1024
    requires 2 * FileSize(p, second) > 3 * FileSize(p, first)
    ensures Reachable(GrownPuts(first, second))
    ensures var s := After(GrownPuts(first, second));
            && ChoosesFour(p, s.tables) && Enabled(s, DoCompact(FOUR, [first]))
            && Get(s, first.key) == Some(second.value)
            && Get(Compact(s, FOUR, [first]), first.key) == Some(first.value)
  {
    GrownFacts(first, second);
    hide Reachable, After, Get, CanCompact, Enabled, IsMerge, ChoosesFour, EachFlushed, Accepted, FileSize, GrownPuts;
    var puts := GrownPuts(first, second);
    EachPutFlushed(puts);
    CompactedLast(After(puts), puts, first);
    FlushedTables(After(puts), puts);
    GrownSizes(p, first, second);
  }

  lemma GrownFacts(first: Entry, second: Entry)
    requires Accepted(first) && Accepted(second) && first.key == second.key
    ensures var puts := GrownPuts(first, second);
            && AllAcceptedPuts(puts) && |puts| == 5 && puts[4] == second
            && (forall i :: 0 <= i < 5 ==> puts[i].key == first.key)
            && IsMerge(Singles(puts[..4]), [first])
  {
    hide IsMerge, Accepted;
    OneKeyMerge(GrownPuts(first, second)[..4], 0);
  }

  lemma FlushedTables(s: EngineState, puts: seq<Entry>)
    requires EachFlushed(s, puts)
    ensures s.tables == OneEach(puts)
  {}

  /** Reads of one key before and after compacting the first four of its tables. */
  lemma CompactedLast(s: EngineState, puts: seq<Entry>, e: Entry)
    requires EachFlushed(s, puts) && |puts| >= 4 && |e.key| <= 1024
    requires forall i :: 0 <= i < |puts| ==> puts[i].key == e.key
    requires IsMerge(Singles(puts[..4]), [e])
    ensures Enabled(s, DoCompact(FOUR, [e]))
    ensures Get(s, e.key) == Some(puts[|puts| - 1].value)
    ensures Get(Compact(s, FOUR, [e]), e.key) == Some(e.value)
  {
    hide Get, CanCompact, Enabled, IsMerge, Kept;
    var n := |puts| - 1;
    assert s.tables == OneEach(puts[..n]) + [Table(n + 1, [puts[n]])];
    LastTableDecides(s, OneEach(puts[..n]), n + 1, puts[n]);
    ShortKeyScanned(e.key);
    CompactFour(s, puts, [e]);
    LastTableDecides(Compact(s, FOUR, [e]), Kept(s.tables, IdSet(FOUR)), s.counter, e);
  }

  lemma GrownSizes(p: Params, first: Entry, second: Entry)
    requires p.numBits > 0 && 2 * FileSize(p, second) > 3 * FileSize(p, first)
    ensures ChoosesFour(p, OneEach(GrownPuts(first, second)))
  {
    hide FileSize, OnlyChoice;
    var puts := GrownPuts(first, second);
    SizesOf(p, puts);
    FourAndLarger(SizedFiles(p, OneEach(puts)), FileSize(p, first));
  }

  lemma FourAndLarger(files: seq<Selection.Sized>, size: nat)
    requires |files| == 5 && (forall i :: 0 <= i < 4 ==> files[i].size == size) && 2 * files[4].size > 3 * size
    ensures OnlyChoice(files, files[..4])
  {
    hide OnlyChoice, Selection.Qualifies;
    var four, rest := files[..4], [files[4]];
    SimilarQualify(four);
    forall f, g | f in four && g in rest ensures !Selection.Within(f.size, g.size) {
      var i :| 0 <= i < 4 && four[i] == f;
    }
    assert files == four + rest;
    FourChosen(four, rest);
  }

  lemma SimilarQualify(fs: seq<Selection.Sized>)
    requires forall i, j :: 0 <= i < |fs| && 0 <= j < |fs| ==> Selection.Within(fs[i].size, fs[j].size)
    ensures Selection.Qualifies(multiset(fs), |fs|)
  {
    forall f, g | f in multiset(fs) && g in multiset(fs) ensures Selection.Within(f.size, g.size) {
      assert f in fs && g in fs;
      var i :| 0 <= i < |fs| && fs[i] == f;
      var j :| 0 <= j < |fs| && fs[j] == g;
    }
  }

  function TiedPuts(first: Entry, second: Entry): seq<Entry> {
    [first, first, first, second]
  }

  /** Four puts of a key in the same second, in tables of similar size, which are all chosen: the merge
      may keep the value overwritten. */
  lemma TiedMergeMayGoBack(p: Params, first: Entry, second: Entry)
    requires p.numBits > 0 && Accepted(first) && Accepted(second) && first.key == second.key && |first.key| <= 1024
    requires first.timestamp == second.timestamp && Similar(p, first, second)
    ensures Reachable(TiedPuts(first, second))
    ensures var s := After(TiedPuts(first, second));
            && ChoosesFour(p, s.tables) && Enabled(s, DoCompact(FOUR, [first]))
            && Get(s, first.key) == Some(second.value)
            && Get(Compact(s, FOUR, [first]), first.key) == Some(first.value)
  {
    TiedFacts(first, second);
    TiedSimilar(p, first, second);
    hide Reachable, After, Get, CanCompact, Enabled, IsMerge, ChoosesFour, EachFlushed, Accepted, Similar, TiedPuts;
    var puts := TiedPuts(first, second);
    EachPutFlushed(puts);
    CompactedLast(After(puts), puts, first);
    FlushedTables(After(puts), puts);
  }

  lemma TiedFacts(first: Entry, second: Entry)
    requires Accepted(first) && Accepted(second) && first.key == second.key && first.timestamp == second.timestamp
    ensures var puts := TiedPuts(first, second);
            && AllAcceptedPuts(puts) && |puts| == 4 && puts[3] == second
            && (forall i :: 0 <= i < 4 ==> puts[i].key == first.key)
            && IsMerge(Singles(puts[..4]), [first])
  {
    hide IsMerge, Accepted;
    OneKeyMerge(TiedPuts(first, second)[..4], 0);
  }

  lemma TiedSimilar(p: Params, first: Entry, second: Entry)
    requires p.numBits > 0 && Similar(p, first, second)
    ensures ChoosesFour(p, OneEach(TiedPuts(first, second)))
  {
    hide FileSize, ChoosesFour;
    SimilarToItself(p, first);
    SimilarToItself(p, second);
    SimilarChosen(p, TiedPuts(first, second));
  }

  /** Neither file is more than one and a half times as large as the other. */
  predicate Similar(p: Params, a: Entry, b: Entry)
    requires p.numBits > 0
  {
    Selection.Within(FileSize(p, a), FileSize(p, b)) && Selection.Within(FileSize(p, b), FileSize(p, a))
  }

  lemma SimilarChosen(p: Params, puts: seq<Entry>)
    requires p.numBits > 0 && |puts| == 4
    requires forall i, j :: 0 <= i < 4 && 0 <= j < 4 ==> Similar(p, puts[i], puts[j])
    ensures ChoosesFour(p, OneEach(puts))
  {
    hide FileSize, OnlyChoice, Selection.Within, Selection.Qualifies;
    var files := SizedFiles(p, OneEach(puts));
    SizesOf(p, puts);
    forall i, j | 0 <= i < 4 && 0 <= j < 4 ensures Selection.Within(files[i].size, files[j].size) {
      assert Similar(p, puts[i], puts[j]);
    }
    FourSimilar(files);
  }

  lemma FourSimilar(files: seq<Selection.Sized>)
    requires |files| == 4
    requires forall i, j :: 0 <= i < 4 && 0 <= j < 4 ==> Selection.Within(files[i].size, files[j].size)
    ensures OnlyChoice(files, files[..4])
  {
    hide OnlyChoice, Selection.Within, Selection.Qualifies;
    SimilarQualify(files);
    assert files[..4] == files == files + [];
    FourChosen(files, []);
  }

  // ---------- a key past the scan bound ----------

  function PastPuts(past: Entry, other: Entry): seq<Entry> {
    [past, other, other, other]
  }

  /** The smallest of four chosen tables holds only a key past the bound. Its scan is empty, the other
      three are not, and the merge of the files in order of size aborts. */
  lemma PastBoundAborts(p: Params, past: Entry, other: Entry)
    requires p.numBits > 0 && Accepted(past) && Accepted(other)
    requires Less(ScanBound(), past.key) && !Less(ScanBound(), other.key)
    requires FileSize(p, past) < FileSize(p, other) && Similar(p, past, other)
    ensures Reachable(PastPuts(past, other))
    ensures var s := After(PastPuts(past, other));
            && ChoosesFour(p, s.tables)
            && (forall i :: 1 <= i < 4 ==> |FileFor(p, s.tables[0])| < |FileFor(p, s.tables[i])|)
            && (forall id :: id in FOUR ==> id in s.disk)
            && !Aligned(ScansOf(TablesIn(s.disk, FOUR))) && OutOfBounds(ScansOf(TablesIn(s.disk, FOUR)))
  {
    var puts := PastPuts(past, other);
    hide Reachable, After, EachFlushed, ChoosesFour, Accepted, Less, Selection.Within, FileFor;
    EachPutFlushed(puts);
    PastScans(After(puts), past, other);
    FlushedTables(After(puts), puts);
    SimilarChosen(p, puts) by {
      SimilarToItself(p, other);
      SimilarToItself(p, past);
    }
    SizesOf(p, puts);
  }

  lemma SimilarToItself(p: Params, e: Entry)
    requires p.numBits > 0
    ensures Similar(p, e, e)
  {
    hide FileSize;
  }

  lemma PastScans(s: EngineState, past: Entry, other: Entry)
    requires EachFlushed(s, PastPuts(past, other)) && Less(ScanBound(), past.key) && !Less(ScanBound(), other.key)
    ensures forall id :: id in FOUR ==> id in s.disk
    ensures !Aligned(ScansOf(TablesIn(s.disk, FOUR))) && OutOfBounds(ScansOf(TablesIn(s.disk, FOUR)))
  {
    hide Range, Less;
    var puts := PastPuts(past, other);
    FourFiles(s, puts);
    EmptyScanIff([past]);
    ScanCompleteIff([other]);
    assert puts[..4] == puts;
    var scans := ScansOf(TablesIn(s.disk, FOUR));
    assert IsEmptyScan(scans[0]) && HasEntries(scans[1]);
    AllSorted(puts);
    ScansSorted(OneEach(puts));
    AlignmentMatters(scans);
  }

  // ---------- the hypotheses can be met ----------

  /** The engine's filter size, and values that the codec does not shrink. */
  function PlainParams(hash: HashFn): Params {
    Params(Codec((b: ByteString) => Some(b), (c: ByteString) => Some(c)), hash, 95851, 7)
  }

  const TINY: Entry := Entry([1], [7], 1)

  function Large(): Entry {
    Entry([1], Zeros(20000), 2)
  }

  /** Accepted by the log, and past the end of the merge's scan. */
  function Past(): Entry {
    Entry(Ones(1025), [], 0)
  }

  function Wide(): Entry {
    Entry([1], Zeros(3000), 0)
  }

  lemma SizesExample(hash: HashFn)
    ensures Accepted(TINY) && Accepted(Large()) && Accepted(Past()) && Accepted(Wide())
    ensures var p := PlainParams(hash);
            && 2 * FileSize(p, Large()) > 3 * FileSize(p, TINY)
            && FileSize(p, Past()) < FileSize(p, Wide()) && Similar(p, Past(), Wide())
    ensures Less(ScanBound(), Past().key) && !Less(ScanBound(), Wide().key)
  {
    var p := PlainParams(hash);
    PlainSize(hash, TINY);
    PlainSize(hash, Large());
    PlainSize(hash, Past());
    PlainSize(hash, Wide());
    hide FileSize, Less;
    PastBoundIff(Past().key);
    PastBoundIff(Wide().key);
    assert Past().key[..1024] == ScanBound();
  }

  lemma PlainSize(hash: HashFn, e: Entry)
    requires |e.key| < 0x20_0000 && |e.value| < 0x20_0000
    ensures 12142 + 2 * |e.key| + |e.value| <= FileSize(PlainParams(hash), e) <= 12148 + 2 * |e.key| + |e.value|
  {
    hide LittleEndian, FileSize, VarintBytes;
    OneEntrySize(PlainParams(hash), e);
    assert EncodeEntries([], [e]) == EncodeEntry([], e) by {
      assert [e][1..] == [] && EncodeEntry([], e) + [] == EncodeEntry([], e);
    }
    assert CommonPrefixLen([], e.key) == 0;
    VarintLength(0);
    VarintLength(|e.key|);
    VarintLength(|e.value|);
  }
}
