/** The engine's range scan (src/storage_engine.rs): gather every layer, sort by key and newest
    timestamp, keep the first entry of each key; and when that agrees with point reads. */
module EngineScan {
  import opened Bytes
  import opened Results
  import opened Entries
  import opened Memtables
  import opened Tables
  import opened EngineModel

  // ---------- the scan ----------

  function FrozenEntries(s: EngineState): seq<Entry> {
    match s.frozen case Some(f) => SortedEntries(f.data) case None => []
  }

  function GatherTables(tables: seq<Table>, start: ByteString, end: ByteString): seq<Entry> {
    if tables == [] then []
    else GatherTables(tables[..|tables| - 1], start, end) + Range(tables[|tables| - 1].entries, start, end, true)
  }

  /** Memtables contribute keys below `end`, tables also `end` itself; oldest table first. */
  function Gather(s: EngineState, start: ByteString, end: ByteString): seq<Entry> {
    Range(SortedEntries(s.mem.data), start, end, false) + Range(FrozenEntries(s), start, end, false)
    + GatherTables(s.tables, start, end)
  }

  /** Strictly earlier in the sort: smaller key, or the same key with a newer timestamp. */
  predicate Earlier(a: Entry, b: Entry) {
    Less(a.key, b.key) || (a.key == b.key && a.timestamp > b.timestamp)
  }

  function InsertEntry(e: Entry, es: seq<Entry>): seq<Entry> {
    if es == [] || !Earlier(es[0], e) then [e] + es else [es[0]] + InsertEntry(e, es[1..])
  }

  /** Stable sort: equal entries keep their order. */
  function SortEntries(es: seq<Entry>): seq<Entry> {
    if es == [] then [] else InsertEntry(es[0], SortEntries(es[1..]))
  }

  /** Drops every entry whose key is the key of the entry kept before it. */
  function Dedup(es: seq<Entry>): (r: seq<Entry>)
    ensures es != [] ==> r != [] && r[0] == es[0]
    decreases |es|
  {
    if |es| <= 1 then es
    else if es[0].key == es[1].key then Dedup([es[0]] + es[2..])
    else [es[0]] + Dedup(es[1..])
  }

  /** A reversed range aborts in the memtable. */
  function Scan(s: EngineState, start: ByteString, end: ByteString): Result<seq<Entry>> {
    if Less(end, start) then Err(Panic) else Ok(Dedup(SortEntries(Gather(s, start, end))))
  }

  // ---------- the version a scan keeps ----------

  /** Of two candidates the newer, and the first when the timestamps tie. */
  function Newer(a: Option<Version>, b: Option<Version>): Option<Version> {
    if a.None? then b else if b.None? then a else if a.value.timestamp >= b.value.timestamp then a else b
  }

  function Best(es: seq<Entry>, key: ByteString): Option<Version> {
    if es == [] then None
    else Newer(if es[0].key == key then Some(es[0].Ver()) else None, Best(es[1..], key))
  }

  lemma {:induction false} BestConcat(a: seq<Entry>, b: seq<Entry>, key: ByteString)
    ensures Best(a + b, key) == Newer(Best(a, key), Best(b, key))
  {
    if a == [] {
      assert a + b == b;
    } else {
      assert (a + b)[1..] == a[1..] + b;
      BestConcat(a[1..], b, key);
    }
  }

  /** On a sorted list there is nothing to choose. */
  lemma {:induction false} BestOfSorted(es: seq<Entry>, key: ByteString)
    requires Sorted(es)
    ensures Best(es, key) == Lookup(es, key)
  {
    if es != [] {
      BestOfSorted(es[1..], key);
      if es[0].key == key {
        LessIrreflexive(key);
        LookupAbsent(es[1..], key);
      }
    }
  }

  // ---------- sort and dedup ----------

  ghost predicate InOrder(es: seq<Entry>) {
    forall i, j :: 0 <= i < j < |es| ==> !Earlier(es[j], es[i])
  }

  lemma EarlierTransitive(a: Entry, b: Entry, c: Entry)
    requires !Earlier(b, a) && !Earlier(c, b)
    ensures !Earlier(c, a)
  {
    LessTrichotomy(a.key, b.key);
    LessTrichotomy(b.key, c.key);
    LessTrichotomy(a.key, c.key);
    if Less(a.key, b.key) && Less(b.key, c.key) {
      LessTransitive(a.key, b.key, c.key);
    }
  }

  lemma {:induction false} InsertInOrder(e: Entry, es: seq<Entry>, least: Entry)
    requires InOrder(es) && !Earlier(e, least) && forall i :: 0 <= i < |es| ==> !Earlier(es[i], least)
    ensures var r := InsertEntry(e, es);
            InOrder(r) && forall i :: 0 <= i < |r| ==> !Earlier(r[i], least)
  {
    if es == [] {
    } else if !Earlier(es[0], e) {
      forall i | 0 <= i < |es| ensures !Earlier(es[i], e) {
        if i > 0 {
          EarlierTransitive(e, es[0], es[i]);
        }
      }
    } else {
      EarlierAsymmetric(es[0], e);
      InsertInOrder(e, es[1..], es[0]);
      forall i | 0 <= i < |InsertEntry(e, es[1..])| ensures !Earlier(InsertEntry(e, es[1..])[i], least) {
        EarlierTransitive(least, es[0], InsertEntry(e, es[1..])[i]);
      }
    }
  }

  lemma EarlierAsymmetric(a: Entry, b: Entry)
    requires Earlier(a, b)
    ensures !Earlier(b, a)
  {
    LessTrichotomy(a.key, b.key);
  }

  lemma {:induction false} SortInOrder(es: seq<Entry>)
    ensures InOrder(SortEntries(es))
  {
    if es != [] {
      SortInOrder(es[1..]);
      InsertAny(es[0], SortEntries(es[1..]));
    }
  }

  lemma InsertAny(e: Entry, es: seq<Entry>)
    requires InOrder(es)
    ensures InOrder(InsertEntry(e, es))
  {
    LessIrreflexive(e.key);
    if es != [] {
      LessIrreflexive(es[0].key);
      InsertInOrder(e, es, if Earlier(es[0], e) then es[0] else e) by {
        var least := if Earlier(es[0], e) then es[0] else e;
        if Earlier(es[0], e) {
          EarlierAsymmetric(es[0], e);
        } else {
          forall i | 0 <= i < |es| ensures !Earlier(es[i], e) {
            if i > 0 {
              EarlierTransitive(e, es[0], es[i]);
            }
          }
        }
      }
    }
  }

  /** In a sorted list the first entry of a key is its best. */
  lemma {:induction false} InsertLookup(e: Entry, es: seq<Entry>, key: ByteString)
    requires InOrder(es)
    ensures Lookup(InsertEntry(e, es), key)
            == Newer(if e.key == key then Some(e.Ver()) else None, Lookup(es, key))
  {
    if es == [] || !Earlier(es[0], e) {
      assert ([e] + es)[1..] == es;
      if e.key == key && Lookup(es, key).Some? {
        var i := LookupFound(es, key);
        if i > 0 && es != [] {
          EarlierTransitive(e, es[0], es[i]);
        }
      }
    } else {
      InsertLookup(e, es[1..], key);
      assert ([es[0]] + InsertEntry(e, es[1..]))[1..] == InsertEntry(e, es[1..]);
      if es[0].key == key && e.key == key {
        LessIrreflexive(key);
      }
    }
  }

  lemma {:induction false} SortLookup(es: seq<Entry>, key: ByteString)
    ensures Lookup(SortEntries(es), key) == Best(es, key)
  {
    if es != [] {
      SortLookup(es[1..], key);
      SortInOrder(es[1..]);
      InsertLookup(es[0], SortEntries(es[1..]), key);
    }
  }

  ghost predicate KeysInOrder(es: seq<Entry>) {
    forall i, j :: 0 <= i < j < |es| ==> AtMost(es[i].key, es[j].key)
  }

  lemma InOrderKeys(es: seq<Entry>)
    requires InOrder(es)
    ensures KeysInOrder(es)
  {
    forall i, j | 0 <= i < j < |es| ensures AtMost(es[i].key, es[j].key) {
      LessTrichotomy(es[i].key, es[j].key);
    }
  }

  /** Removing repeats leaves strictly sorted keys and the same lookups. */
  lemma {:induction false} DedupCorrect(es: seq<Entry>)
    requires KeysInOrder(es)
    ensures Sorted(Dedup(es))
    ensures forall key :: Lookup(Dedup(es), key) == Lookup(es, key)
    ensures forall i :: 0 <= i < |Dedup(es)| && es != [] ==> AtMost(es[0].key, Dedup(es)[i].key)
    decreases |es|
  {
    if |es| > 1 {
      if es[0].key == es[1].key {
        var shorter := [es[0]] + es[2..];
        assert shorter[1..] == es[2..] && es[1..][1..] == es[2..];
        DedupCorrect(shorter);
      } else {
        DedupCorrect(es[1..]);
        var rest := Dedup(es[1..]);
        forall i | 0 <= i < |rest| ensures Less(es[0].key, rest[i].key) {
          LessAtMostTransitive(es[0].key, es[1].key, rest[i].key);
        }
        assert ([es[0]] + rest)[1..] == rest;
      }
    }
  }

  // ---------- layers ----------

  function TableLayers(tables: seq<Table>): (layers: seq<Contents>)
    ensures |layers| == |tables| && forall i :: 0 <= i < |tables| ==> layers[i] == Replay(tables[i].entries)
  {
    seq(|tables|, i requires 0 <= i < |tables| => Replay(tables[i].entries))
  }

  /** The layers in the order a scan gathers them: active, frozen, then the tables, oldest first. */
  function LayersOf(s: EngineState): (layers: seq<Contents>)
    ensures |layers| == 2 + |s.tables|
  {
    [s.mem.data, FrozenMap(s)] + TableLayers(s.tables)
  }

  /** Layer `i` has the newest timestamp for the key, and is the first gathered that has it. */
  ghost predicate ScanKeeps(layers: seq<Contents>, key: ByteString, i: int) {
    && 0 <= i < |layers| && key in layers[i]
    && (forall k :: 0 <= k < i && key in layers[k] ==> layers[k][key].timestamp < layers[i][key].timestamp)
    && (forall k :: i < k < |layers| && key in layers[k] ==> layers[k][key].timestamp <= layers[i][key].timestamp)
  }

  ghost predicate LastHolds(layers: seq<Contents>, key: ByteString, j: int) {
    0 <= j < |layers| && key in layers[j] && forall k :: j < k < |layers| ==> key !in layers[k]
  }

  /** A point read takes the active layer, then the frozen one, then the newest table. */
  ghost predicate ReadTakes(layers: seq<Contents>, key: ByteString, j: int) {
    && 0 <= j < |layers| && key in layers[j]
    && (j >= 1 ==> key !in layers[0])
    && (j >= 2 ==> key !in layers[1] && forall k :: j < k < |layers| ==> key !in layers[k])
  }

  /** The version the scan's order of preference leaves. */
  function BestLayer(layers: seq<Contents>, key: ByteString): Option<Version> {
    if layers == [] then None else Newer(BestLayer(layers[..|layers| - 1], key), Find(layers[|layers| - 1], key))
  }

  lemma {:induction false} BestLayerConcat(a: seq<Contents>, b: seq<Contents>, key: ByteString)
    ensures BestLayer(a + b, key) == Newer(BestLayer(a, key), BestLayer(b, key))
  {
    if b == [] {
      assert a + b == a;
    } else {
      var n := |b| - 1;
      assert (a + b)[..|a| + n] == a + b[..n];
      BestLayerConcat(a, b[..n], key);
    }
  }

  /** The version left is that of the layer the scan keeps, and there is such a layer if any holds
      the key. */
  lemma {:induction false} BestIsKept(layers: seq<Contents>, key: ByteString) returns (i: int)
    ensures BestLayer(layers, key).Some? <==> ScanKeeps(layers, key, i)
    ensures ScanKeeps(layers, key, i) ==> BestLayer(layers, key) == Some(layers[i][key])
    ensures BestLayer(layers, key).None? ==> forall k :: 0 <= k < |layers| ==> key !in layers[k]
  {
    i := 0;
    if layers != [] {
      var n := |layers| - 1;
      var front := layers[..n];
      i := BestIsKept(front, key);
      if key in layers[n]
         && (BestLayer(front, key).None? || BestLayer(front, key).value.timestamp < layers[n][key].timestamp) {
        i := n;
      }
      assert forall k :: 0 <= k < n ==> front[k] == layers[k];
    }
  }

  lemma KeptUnique(layers: seq<Contents>, key: ByteString, i: int, j: int)
    requires ScanKeeps(layers, key, i) && ScanKeeps(layers, key, j)
    ensures i == j
  {}

  // ---------- exactly what a scan answers ----------

  /** Inside the range the version kept of all layers, at `end` itself that of the tables alone,
      elsewhere nothing. */
  function ScanAnswer(s: EngineState, start: ByteString, end: ByteString, key: ByteString): Option<Version> {
    if AtMost(start, key) && Less(key, end) then BestLayer(LayersOf(s), key)
    else if AtMost(start, key) && key == end then BestLayer(TableLayers(s.tables), key)
    else None
  }

  lemma {:induction false} TablesBest(tables: seq<Table>, start: ByteString, end: ByteString, key: ByteString)
    requires TablesSorted(tables)
    ensures Best(GatherTables(tables, start, end), key)
            == if InRange(key, start, end, true) then BestLayer(TableLayers(tables), key) else None
  {
    hide Range, InRange, Sorted, Replay;
    if tables != [] {
      var n := |tables| - 1;
      var last := Range(tables[n].entries, start, end, true);
      TablesBest(tables[..n], start, end, key);
      BestConcat(GatherTables(tables[..n], start, end), last, key);
      RangeCorrect(tables[n].entries, start, end, true);
      BestOfSorted(last, key);
      RangeLookup(tables[n].entries, key, start, end, true);
      LookupIsFind(tables[n].entries, key);
      assert TableLayers(tables)[..n] == TableLayers(tables[..n]);
    }
  }

  lemma GatherBest(s: EngineState, start: ByteString, end: ByteString, key: ByteString)
    requires TablesSorted(s.tables)
    ensures Best(Gather(s, start, end), key) == ScanAnswer(s, start, end, key)
  {
    hide Sorted, Range, InRange, Less, SortedEntries, GatherTables, Best, BestLayer;
    var mem, frozen := Range(SortedEntries(s.mem.data), start, end, false), Range(FrozenEntries(s), start, end, false);
    BestConcat(mem + frozen, GatherTables(s.tables, start, end), key);
    BestConcat(mem, frozen, key);
    MemtableBest(s.mem.data, start, end, key);
    MemtableBest(FrozenMap(s), start, end, key);
    FrozenListed(s);
    TablesBest(s.tables, start, end, key);
    InRangeMeans(key, start, end);
    BestLayerConcat([s.mem.data, FrozenMap(s)], TableLayers(s.tables), key);
    BestOfPair(s.mem.data, FrozenMap(s), key);
  }

  lemma BestOfPair(a: Contents, b: Contents, key: ByteString)
    ensures BestLayer([a, b], key) == Newer(Find(a, key), Find(b, key))
  {
    assert [a, b][..1] == [a] && [a][..0] == [];
    assert BestLayer([a], key) == Find(a, key);
  }

  lemma FrozenListed(s: EngineState)
    ensures FrozenEntries(s) == SortedEntries(FrozenMap(s))
  {}

  lemma InRangeMeans(key: ByteString, start: ByteString, end: ByteString)
    ensures InRange(key, start, end, false) <==> AtMost(start, key) && Less(key, end)
    ensures InRange(key, start, end, true) <==> AtMost(start, key) && (Less(key, end) || key == end)
  {}

  lemma MemtableBest(m: Contents, start: ByteString, end: ByteString, key: ByteString)
    ensures Best(Range(SortedEntries(m), start, end, false), key)
            == if InRange(key, start, end, false) then Find(m, key) else None
  {
    hide Range, InRange, SortedEntries;
    SortedEntriesCorrect(m);
    RangeCorrect(SortedEntries(m), start, end, false);
    BestOfSorted(Range(SortedEntries(m), start, end, false), key);
    RangeLookup(SortedEntries(m), key, start, end, false);
    LookupIsFind(SortedEntries(m), key);
  }

  /** A reversed range aborts; otherwise, whatever the timestamps, a scan is strictly sorted and answers the
      version it prefers. */
  lemma ScanExact(s: EngineState, start: ByteString, end: ByteString)
    requires TablesSorted(s.tables)
    ensures var r := Scan(s, start, end);
            if Less(end, start) then r == Err(Panic)
            else
              && r.Ok? && Sorted(r.value)
              && forall key :: Lookup(r.value, key) == ScanAnswer(s, start, end, key)
  {
    hide Sorted, InOrder, KeysInOrder, Gather, SortEntries, Dedup, ScanAnswer;
    var gathered := Gather(s, start, end);
    var ordered := SortEntries(gathered);
    SortInOrder(gathered);
    InOrderKeys(ordered);
    DedupCorrect(ordered);
    forall key ensures Lookup(Dedup(ordered), key) == ScanAnswer(s, start, end, key) {
      SortLookup(gathered, key);
      GatherBest(s, start, end, key);
    }
  }

  // ---------- agreement with point reads ----------

  lemma {:induction false} LastTable(tables: seq<Table>, key: ByteString) returns (j: int)
    ensures key in TablesMap(tables) <==> LastHolds(TableLayers(tables), key, j)
    ensures LastHolds(TableLayers(tables), key, j) ==> Find(TablesMap(tables), key) == Some(TableLayers(tables)[j][key])
    ensures key !in TablesMap(tables) ==> forall k :: 0 <= k < |tables| ==> key !in TableLayers(tables)[k]
  {
    j := 0;
    if tables != [] {
      hide Replay;
      var n := |tables| - 1;
      j := LastTable(tables[..n], key);
      assert TableLayers(tables)[..n] == TableLayers(tables[..n]);
      if key in TableLayers(tables)[n] {
        j := n;
      }
      assert forall k :: 0 <= k < n ==> TableLayers(tables)[k] == TableLayers(tables[..n])[k];
    }
  }

  /** The layer a point read takes gives what readers see. */
  lemma TakenIsView(s: EngineState, key: ByteString) returns (j: int)
    ensures key in View(s) <==> ReadTakes(LayersOf(s), key, j)
    ensures ReadTakes(LayersOf(s), key, j) ==> Find(View(s), key) == Some(LayersOf(s)[j][key])
    ensures key !in View(s) ==> forall k :: 0 <= k < |LayersOf(s)| ==> key !in LayersOf(s)[k]
  {
    hide TablesMap;
    var layers, tables := LayersOf(s), TableLayers(s.tables);
    assert layers[0] == s.mem.data && layers[1] == FrozenMap(s);
    assert forall k :: 2 <= k < |layers| ==> layers[k] == tables[k - 2];
    j := LastTable(s.tables, key);
    assert forall k :: 0 <= k < |tables| ==> layers[k + 2] == tables[k];
    if key in s.mem.data {
      j := 0;
    } else if key in FrozenMap(s) {
      j := 1;
    } else {
      j := j + 2;
    }
  }

  lemma TakenUnique(layers: seq<Contents>, key: ByteString, i: int, j: int)
    requires ReadTakes(layers, key, i) && ReadTakes(layers, key, j)
    ensures i == j
  {}

  /** For every key in [start, end), the layer the scan keeps and the layer a point read takes have
      the same value. */
  ghost predicate ScanSafe(s: EngineState, start: ByteString, end: ByteString) {
    forall key, i, j ::
      InRange(key, start, end, false) && ScanKeeps(LayersOf(s), key, i) && ReadTakes(LayersOf(s), key, j)
      ==> LayersOf(s)[i][key].value == LayersOf(s)[j][key].value
  }

  ghost predicate ScanMatchesGet(s: EngineState, start: ByteString, end: ByteString, found: seq<Entry>) {
    forall key :: InRange(key, start, end, false) ==> ValueOf(Lookup(found, key)) == Get(s, key)
  }

  /** On [start, end) a scan and point reads agree exactly when the scan is safe. */
  lemma ScanAgreesIff(s: EngineState, start: ByteString, end: ByteString)
    requires TablesSorted(s.tables) && !Less(end, start)
    ensures ScanMatchesGet(s, start, end, Scan(s, start, end).value) <==> ScanSafe(s, start, end)
  {
    hide Sorted, InRange, ScanAnswer, Scan, View, Get, LayersOf, BestLayer, ScanKeeps, ReadTakes;
    ScanExact(s, start, end);
    var found, layers := Scan(s, start, end).value, LayersOf(s);
    forall key, i, j | InRange(key, start, end, false) && ScanKeeps(layers, key, i) && ReadTakes(layers, key, j)
      ensures KeptAndTaken(layers, key, i, j)
      ensures ValueOf(Lookup(found, key)) == Get(s, key) <==> layers[i][key].value == layers[j][key].value
    {
      AnswersCompared(s, key, i, j);
      InsideAnswer(s, start, end, key);
    }
    forall key | InRange(key, start, end, false)
      ensures ValueOf(Lookup(found, key)) == Get(s, key)
              || exists i, j :: ScanKeeps(layers, key, i) && ReadTakes(layers, key, j)
    {
      var i, j := KeptOrNothing(s, key);
      InsideAnswer(s, start, end, key);
    }
  }

  lemma InsideAnswer(s: EngineState, start: ByteString, end: ByteString, key: ByteString)
    requires InRange(key, start, end, false)
    ensures ScanAnswer(s, start, end, key) == BestLayer(LayersOf(s), key)
  {}

  ghost predicate KeptAndTaken(layers: seq<Contents>, key: ByteString, i: int, j: int) {
    0 <= i < |layers| && 0 <= j < |layers| && key in layers[i] && key in layers[j]
  }

  lemma AnswersCompared(s: EngineState, key: ByteString, i: int, j: int)
    requires TablesSorted(s.tables)
    requires ScanKeeps(LayersOf(s), key, i) && ReadTakes(LayersOf(s), key, j)
    ensures KeptAndTaken(LayersOf(s), key, i, j)
    ensures BestLayer(LayersOf(s), key) == Some(LayersOf(s)[i][key])
    ensures Get(s, key) == Some(LayersOf(s)[j][key].value)
  {
    hide View, Get, LayersOf, BestLayer;
    var i' := BestIsKept(LayersOf(s), key);
    var j' := TakenIsView(s, key);
    KeptUnique(LayersOf(s), key, i, i');
    TakenUnique(LayersOf(s), key, j, j');
    GetIsView(s, key);
  }

  /** A key of some layer is kept and taken somewhere; any other key is found by neither. */
  lemma KeptOrNothing(s: EngineState, key: ByteString) returns (i: int, j: int)
    requires TablesSorted(s.tables)
    ensures (ScanKeeps(LayersOf(s), key, i) && ReadTakes(LayersOf(s), key, j))
            || (BestLayer(LayersOf(s), key) == None && Get(s, key) == None)
  {
    hide View, Get, LayersOf, BestLayer;
    i := BestIsKept(LayersOf(s), key);
    j := TakenIsView(s, key);
    GetIsView(s, key);
  }

  /** Timestamps follow the layers: the layer a read takes is at least as new as those gathered after
      it, and newer than those gathered before it. */
  ghost predicate StampsFollowLayers(s: EngineState, key: ByteString) {
    forall j :: ReadTakes(LayersOf(s), key, j) ==> ScanKeeps(LayersOf(s), key, j)
  }

  /** With timestamps that follow the layers, a scan holds on [start, end) exactly the keys that point
      reads find, in the versions they take. At `end` it answers from the tables alone: the newest
      table's version, if that has the newest timestamp. */
  lemma ScanAgreesWithGet(s: EngineState, start: ByteString, end: ByteString)
    requires TablesSorted(s.tables) && !Less(end, start)
    requires forall key :: InRange(key, start, end, false) ==> StampsFollowLayers(s, key)
    ensures var r := Scan(s, start, end).value;
            && Sorted(r) && ScanMatchesGet(s, start, end, r)
            && (forall key :: InRange(key, start, end, false) ==> Lookup(r, key) == Find(View(s), key))
            && ((forall j :: LastHolds(TableLayers(s.tables), end, j) ==> ScanKeeps(TableLayers(s.tables), end, j))
                ==> Lookup(r, end) == Find(TablesMap(s.tables), end))
  {
    hide Sorted, InRange, ScanAnswer, Scan, View, Get, LayersOf, BestLayer, ScanKeeps, ReadTakes, LastHolds;
    ScanExact(s, start, end);
    ScanAgreesIff(s, start, end);
    var r := Scan(s, start, end).value;
    forall key | InRange(key, start, end, false) ensures Lookup(r, key) == Find(View(s), key) {
      InsideAnswer(s, start, end, key);
      FollowedAnswer(s, key);
    }
    forall key, i, j |
      InRange(key, start, end, false) && ScanKeeps(LayersOf(s), key, i) && ReadTakes(LayersOf(s), key, j)
      ensures KeptAndTaken(LayersOf(s), key, i, j) && LayersOf(s)[i][key].value == LayersOf(s)[j][key].value
    {
      assert StampsFollowLayers(s, key);
      KeptUnique(LayersOf(s), key, i, j);
      AnswersCompared(s, key, i, j);
    }
    assert Lookup(r, end) == ScanAnswer(s, start, end, end);
    EndInRange(s, start, end);
    if forall j :: LastHolds(TableLayers(s.tables), end, j) ==> ScanKeeps(TableLayers(s.tables), end, j) {
      EndAnswer(s.tables, end);
    }
  }

  lemma EndInRange(s: EngineState, start: ByteString, end: ByteString)
    requires !Less(end, start)
    ensures ScanAnswer(s, start, end, end) == BestLayer(TableLayers(s.tables), end)
  {
    LessTrichotomy(start, end);
    LessIrreflexive(end);
  }

  lemma FollowedAnswer(s: EngineState, key: ByteString)
    requires StampsFollowLayers(s, key)
    ensures BestLayer(LayersOf(s), key) == Find(View(s), key)
  {
    hide View, LayersOf, BestLayer, ScanKeeps;
    var i := BestIsKept(LayersOf(s), key);
    var j := TakenIsView(s, key);
    if key in View(s) {
      assert ScanKeeps(LayersOf(s), key, j);
      KeptHolds(LayersOf(s), key, j);
      KeptUnique(LayersOf(s), key, i, j);
    } else if BestLayer(LayersOf(s), key).Some? {
      KeptHolds(LayersOf(s), key, i);
    }
  }

  lemma EndAnswer(tables: seq<Table>, key: ByteString)
    requires forall j :: LastHolds(TableLayers(tables), key, j) ==> ScanKeeps(TableLayers(tables), key, j)
    ensures BestLayer(TableLayers(tables), key) == Find(TablesMap(tables), key)
  {
    hide BestLayer, TablesMap, ScanKeeps, LastHolds, Replay;
    var i := BestIsKept(TableLayers(tables), key);
    var j := LastTable(tables, key);
    if key in TablesMap(tables) {
      KeptHolds(TableLayers(tables), key, j);
      KeptUnique(TableLayers(tables), key, i, j);
    } else if BestLayer(TableLayers(tables), key).Some? {
      KeptHolds(TableLayers(tables), key, i);
    }
  }

  lemma KeptHolds(layers: seq<Contents>, key: ByteString, i: int)
    requires ScanKeeps(layers, key, i)
    ensures 0 <= i < |layers| && key in layers[i]
  {}
}
