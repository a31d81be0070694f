/** Compaction on the table list (src/storage_engine.rs, src/compaction.rs): exactly when the reads
    survive replacing the chosen tables by their merge at the end of the list. */
module CompactionReads {
  import opened Bytes
  import opened Results
  import opened Entries
  import opened Tables
  import opened Merges

  // ---------- replacing tables by their merge ----------

  function Chosen(tables: seq<Table>, ids: set<nat>): seq<Table> {
    if tables == [] then []
    else Chosen(tables[..|tables| - 1], ids) + (if tables[|tables| - 1].id in ids then [tables[|tables| - 1]] else [])
  }

  /** The tables kept: those not among the inputs. */
  function Kept(tables: seq<Table>, ids: set<nat>): seq<Table> {
    if tables == [] then []
    else Kept(tables[..|tables| - 1], ids) + (if tables[|tables| - 1].id in ids then [] else [tables[|tables| - 1]])
  }

  /** The list after compaction: the output goes last, whatever is newer among the kept tables. */
  function Compacted(tables: seq<Table>, ids: set<nat>, out: Table): seq<Table> {
    Kept(tables, ids) + [out]
  }

  lemma {:induction false} KeptMember(tables: seq<Table>, ids: set<nat>, i: nat)
    requires i < |Kept(tables, ids)|
    ensures Kept(tables, ids)[i] in tables && Kept(tables, ids)[i].id !in ids
  {
    var n := |tables| - 1;
    if i < |Kept(tables[..n], ids)| {
      KeptMember(tables[..n], ids, i);
    }
  }

  /** A key of no chosen table reads the same from the kept tables; a key the kept tables lack reads
      the same from the chosen ones. */
  lemma {:induction false} SplitReads(tables: seq<Table>, ids: set<nat>, key: ByteString)
    ensures key !in TablesMap(Chosen(tables, ids)) ==>
              Find(TablesMap(tables), key) == Find(TablesMap(Kept(tables, ids)), key)
    ensures key !in TablesMap(Kept(tables, ids)) ==>
              Find(TablesMap(tables), key) == Find(TablesMap(Chosen(tables, ids)), key)
  {
    if tables != [] {
      hide Replay, Chosen, Kept, TablesMap;
      SplitReads(tables[..|tables| - 1], ids, key);
      TablesLast(tables);
      ChosenLast(tables, ids);
      KeptLast(tables, ids);
    }
  }

  lemma TablesLast(tables: seq<Table>)
    requires tables != []
    ensures TablesMap(tables) == TablesMap(tables[..|tables| - 1]) + Replay(tables[|tables| - 1].entries)
  {
    hide Replay;
  }

  /** The last table joins the chosen ones, or leaves them as they are. */
  lemma ChosenLast(tables: seq<Table>, ids: set<nat>)
    requires tables != []
    ensures var front, last := tables[..|tables| - 1], tables[|tables| - 1];
            TablesMap(Chosen(tables, ids)) ==
            if last.id in ids then TablesMap(Chosen(front, ids)) + Replay(last.entries)
            else TablesMap(Chosen(front, ids))
  {
    hide Replay, TablesMap;
    var n := |tables| - 1;
    TablesMapAppend(Chosen(tables[..n], ids), tables[n]);
    assert Chosen(tables[..n], ids) + [] == Chosen(tables[..n], ids);
  }

  lemma KeptLast(tables: seq<Table>, ids: set<nat>)
    requires tables != []
    ensures var front, last := tables[..|tables| - 1], tables[|tables| - 1];
            TablesMap(Kept(tables, ids)) ==
            if last.id in ids then TablesMap(Kept(front, ids))
            else TablesMap(Kept(front, ids)) + Replay(last.entries)
  {
    hide Replay, TablesMap;
    var n := |tables| - 1;
    TablesMapAppend(Kept(tables[..n], ids), tables[n]);
    assert Kept(tables[..n], ids) + [] == Kept(tables[..n], ids);
  }

  lemma {:induction false} ChosenHolder(tables: seq<Table>, ids: set<nat>, key: ByteString)
    requires TablesSorted(tables) && key in TablesMap(Chosen(tables, ids))
    ensures exists k :: 0 <= k < |tables| && tables[k].id in ids && Holds(tables[k], key)
  {
    hide Sorted, Replay, Kept;
    var n := |tables| - 1;
    ChosenLast(tables, ids);
    LookupIsFind(tables[n].entries, key);
    if !(tables[n].id in ids && Holds(tables[n], key)) {
      ChosenHolder(tables[..n], ids, key);
      var k :| 0 <= k < n && tables[..n][k].id in ids && Holds(tables[..n][k], key);
      assert tables[k].id in ids && Holds(tables[k], key);
    }
  }

  // ---------- what a merge may keep ----------

  /** An entry with the newest timestamp of its key; with ties there are several. */
  ghost predicate IsTopVersion(lists: seq<seq<Entry>>, e: Entry) {
    && FromInput(lists, e)
    && forall i, a :: 0 <= i < |lists| && 0 <= a < |lists[i]| && lists[i][a].key == e.key ==>
         lists[i][a].timestamp <= e.timestamp
  }

  ghost predicate InLists(lists: seq<seq<Entry>>, key: ByteString) {
    exists e :: FromInput(lists, e) && e.key == key
  }

  lemma {:induction false} TopVersionExists(lists: seq<seq<Entry>>, e: Entry) returns (top: Entry)
    requires FromInput(lists, e)
    ensures IsTopVersion(lists, top) && top.key == e.key
    decreases 0x1_0000_0000_0000_0000 - e.timestamp
  {
    if IsTopVersion(lists, e) {
      top := e;
    } else {
      var i, a :| 0 <= i < |lists| && 0 <= a < |lists[i]| && lists[i][a].key == e.key
                  && lists[i][a].timestamp > e.timestamp;
      assert FromInput(lists, lists[i][a]);
      top := TopVersionExists(lists, lists[i][a]);
    }
  }

  /** A merge holds exactly the keys of its inputs, each in a newest version. */
  lemma MergeKeepsTop(lists: seq<seq<Entry>>, out: seq<Entry>, key: ByteString)
    requires IsMerge(lists, out)
    ensures Lookup(out, key) == Find(Replay(out), key)
    ensures key in Replay(out) <==> InLists(lists, key)
    ensures key in Replay(out) ==>
              var v := Replay(out)[key];
              IsTopVersion(lists, Entry(key, v.value, v.timestamp))
  {
    hide Covered, FromInput, Replay;
    LookupIsFind(out, key);
    if Lookup(out, key).Some? {
      var o := LookupFound(out, key);
      assert FromInput(lists, out[o]);
      forall i, a | 0 <= i < |lists| && 0 <= a < |lists[i]| && lists[i][a].key == key
        ensures lists[i][a].timestamp <= out[o].timestamp
      {
        assert Covered(out, lists[i][a]);
        CoveredByKey(out, lists[i][a], o);
      }
      assert out[o] == Entry(key, out[o].value, out[o].timestamp);
    }
    if InLists(lists, key) {
      var e :| FromInput(lists, e) && e.key == key;
      var i, a := InputAt(lists, e);
      assert Covered(out, lists[i][a]);
      var p := CoveredAt(out, e);
      LookupPresent(out, p);
    }
  }

  lemma CoveredByKey(out: seq<Entry>, e: Entry, o: nat)
    requires Sorted(out) && Covered(out, e) && o < |out| && out[o].key == e.key
    ensures e.timestamp <= out[o].timestamp
  {
    var p := CoveredAt(out, e);
    LessIrreflexive(e.key);
    assert p == o;
  }

  /** Any newest version may be the one a merge keeps. */
  lemma MergeWith(lists: seq<seq<Entry>>, e: Entry) returns (out: seq<Entry>)
    requires IsTopVersion(lists, e)
    ensures IsMerge(lists, out) && Find(Replay(out), e.key) == Some(e.Ver())
  {
    var m := map k | k in KeySet(lists) :: if k == e.key then e.Ver() else TopOf(lists, k);
    out := SortedEntries(m);
    SortedEntriesCorrect(m);
    MergeOfTops(lists, m, out);
    assert e.key in KeySet(lists);
  }

  ghost function TopOf(lists: seq<seq<Entry>>, key: ByteString): (v: Version)
    requires key in KeySet(lists)
    ensures IsTopVersion(lists, Entry(key, v.value, v.timestamp))
  {
    assert exists v: Version :: IsTopVersion(lists, Entry(key, v.value, v.timestamp)) by {
      var i, a :| 0 <= i < |lists| && 0 <= a < |lists[i]| && lists[i][a].key == key;
      assert FromInput(lists, lists[i][a]);
      var top := TopVersionExists(lists, lists[i][a]);
      assert top == Entry(key, top.Ver().value, top.Ver().timestamp);
    }
    var v: Version :| IsTopVersion(lists, Entry(key, v.value, v.timestamp));
    v
  }

  /** A newest version of every key, in key order, is a merge. */
  lemma MergeOfTops(lists: seq<seq<Entry>>, m: Contents, out: seq<Entry>)
    requires m.Keys == KeySet(lists) && Sorted(out) && Replay(out) == m
    requires forall k :: k in m ==> IsTopVersion(lists, Entry(k, m[k].value, m[k].timestamp))
    ensures IsMerge(lists, out)
  {
    hide Sorted, Replay, FromInput, IsTopVersion;
    forall o | 0 <= o < |out| ensures FromInput(lists, out[o]) {
      LookupPresent(out, o);
      LookupIsFind(out, out[o].key);
      assert out[o] == Entry(out[o].key, m[out[o].key].value, m[out[o].key].timestamp);
      TopIsInput(lists, out[o]);
    }
    forall i, a | 0 <= i < |lists| && 0 <= a < |lists[i]| ensures Covered(out, lists[i][a]) {
      var k := lists[i][a].key;
      assert k in KeySet(lists);
      LookupIsFind(out, k);
      var o := LookupFound(out, k);
      TopCovers(lists, Entry(k, m[k].value, m[k].timestamp), i, a);
    }
  }

  lemma TopIsInput(lists: seq<seq<Entry>>, e: Entry)
    requires IsTopVersion(lists, e)
    ensures FromInput(lists, e)
  {}

  lemma TopCovers(lists: seq<seq<Entry>>, e: Entry, i: nat, a: nat)
    requires IsTopVersion(lists, e) && i < |lists| && a < |lists[i]| && lists[i][a].key == e.key
    ensures lists[i][a].timestamp <= e.timestamp
  {}

  // ---------- exactly when reads survive ----------

  /** Every version a merge of the lists may keep is what the tables answer, and for a key of the
      chosen tables that the lists lack the kept tables answer as all do. */
  ghost predicate ListsSafe(tables: seq<Table>, ids: set<nat>, lists: seq<seq<Entry>>) {
    && (forall e :: IsTopVersion(lists, e) ==> Read(TablesMap(tables), e.key) == Some(e.value))
    && forall key :: key in TablesMap(Chosen(tables, ids)) && !InLists(lists, key) ==>
         Read(TablesMap(Kept(tables, ids)), key) == Read(TablesMap(tables), key)
  }

  /** Every merge of the lists, put in place of the chosen tables, leaves every read unchanged. */
  ghost predicate EveryMergeKeepsReads(tables: seq<Table>, ids: set<nat>, lists: seq<seq<Entry>>, newId: nat) {
    forall out :: IsMerge(lists, out) ==>
      SameReads(TablesMap(Compacted(tables, ids, Table(newId, out))), TablesMap(tables))
  }

  /** For whatever lists the scans return. */
  lemma CompactionReadsIff(tables: seq<Table>, ids: set<nat>, lists: seq<seq<Entry>>, newId: nat)
    ensures EveryMergeKeepsReads(tables, ids, lists, newId) <==> ListsSafe(tables, ids, lists)
  {
    hide IsMerge, SameReads, TablesMap, Compacted, ListsSafe;
    if ListsSafe(tables, ids, lists) {
      forall out | IsMerge(lists, out)
        ensures SameReads(TablesMap(Compacted(tables, ids, Table(newId, out))), TablesMap(tables))
      {
        SafeMergeKeepsReads(tables, ids, lists, Table(newId, out));
      }
    }
    if EveryMergeKeepsReads(tables, ids, lists, newId) {
      KeepingReadsIsSafe(tables, ids, lists, newId);
    }
  }

  /** What is read after a compaction. */
  lemma CompactedRead(tables: seq<Table>, ids: set<nat>, out: Table, key: ByteString)
    ensures Read(TablesMap(Compacted(tables, ids, out)), key)
            == if key in Replay(out.entries) then Some(Replay(out.entries)[key].value)
               else Read(TablesMap(Kept(tables, ids)), key)
  {
    hide Replay, TablesMap, Kept;
    TablesMapAppend(Kept(tables, ids), out);
  }

  lemma SafeMergeKeepsReads(tables: seq<Table>, ids: set<nat>, lists: seq<seq<Entry>>, out: Table)
    requires ListsSafe(tables, ids, lists) && IsMerge(lists, out.entries)
    ensures SameReads(TablesMap(Compacted(tables, ids, out)), TablesMap(tables))
  {
    hide IsMerge, Replay, TablesMap, Kept, Chosen, Compacted, IsTopVersion, InLists;
    forall key ensures Read(TablesMap(Compacted(tables, ids, out)), key) == Read(TablesMap(tables), key) {
      CompactedRead(tables, ids, out, key);
      MergeKeepsTop(lists, out.entries, key);
      if key in Replay(out.entries) {
        var v := Replay(out.entries)[key];
        assert IsTopVersion(lists, Entry(key, v.value, v.timestamp));
      } else {
        SplitReads(tables, ids, key);
      }
    }
  }

  lemma KeepingReadsIsSafe(tables: seq<Table>, ids: set<nat>, lists: seq<seq<Entry>>, newId: nat)
    requires EveryMergeKeepsReads(tables, ids, lists, newId)
    ensures ListsSafe(tables, ids, lists)
  {
    hide IsMerge, Replay, TablesMap, Kept, Chosen, Compacted, IsTopVersion, InLists;
    forall e | IsTopVersion(lists, e) ensures Read(TablesMap(tables), e.key) == Some(e.value) {
      var out := MergeWith(lists, e);
      CompactedRead(tables, ids, Table(newId, out), e.key);
      assert IsMerge(lists, out);
    }
    forall key | !InLists(lists, key)
      ensures Read(TablesMap(Kept(tables, ids)), key) == Read(TablesMap(tables), key)
    {
      var out := SomeMerge(lists);
      MergeKeepsTop(lists, out, key);
      CompactedRead(tables, ids, Table(newId, out), key);
      assert IsMerge(lists, out);
    }
  }

  lemma SomeMerge(lists: seq<seq<Entry>>) returns (out: seq<Entry>)
    ensures IsMerge(lists, out)
  {
    var m := map k | k in KeySet(lists) :: TopOf(lists, k);
    out := SortedEntries(m);
    SortedEntriesCorrect(m);
    MergeOfTops(lists, m, out);
  }

  // ---------- the scans of a compaction ----------

  function ScansOf(inputs: seq<Table>): (scans: seq<ScanOutcome>)
    ensures |scans| == |inputs|
  {
    seq(|inputs|, i requires 0 <= i < |inputs| => Scanned(ScannedForMerge(inputs[i].entries)))
  }

  function NumbersOf(inputs: seq<Table>): set<nat> {
    set t | t in inputs :: t.id
  }

  /** The inputs, in whatever order they are listed, are the tables with those numbers. */
  ghost predicate AreTables(inputs: seq<Table>, tables: seq<Table>) {
    && (forall t :: t in inputs ==> t in tables)
    && forall t :: t in tables && t.id in NumbersOf(inputs) ==> t in inputs
  }

  /** No chosen table has a newer timestamp for the key. */
  ghost predicate TopStamp(tables: seq<Table>, ids: set<nat>, i: int, key: ByteString) {
    && 0 <= i < |tables| && tables[i].id in ids && Holds(tables[i], key)
    && forall k :: 0 <= k < |tables| && tables[k].id in ids && Holds(tables[k], key) ==>
         Stamp(tables[k], key) <= Stamp(tables[i], key)
  }

  /** Within the scan bound every newest-stamped chosen version is what the tables answer; past it,
      where the scan drops the key, the kept tables answer as all tables do. */
  ghost predicate CompactionSafe(tables: seq<Table>, ids: set<nat>) {
    && (forall i, key :: TopStamp(tables, ids, i, key) && !Less(ScanBound(), key) ==>
          Read(TablesMap(tables), key) == Some(Lookup(tables[i].entries, key).value.value))
    && forall key :: Less(ScanBound(), key) && key in TablesMap(Chosen(tables, ids)) ==>
         Read(TablesMap(Kept(tables, ids)), key) == Read(TablesMap(tables), key)
  }

  lemma ScansSorted(tables: seq<Table>)
    requires TablesSorted(tables)
    ensures SortedScans(ScansOf(tables)) && NoFailure(ScansOf(tables))
  {
    hide Sorted;
    forall i | 0 <= i < |tables| ensures Sorted(ScannedForMerge(tables[i].entries)) {
      RangeCorrect(tables[i].entries, [], ScanBound(), true);
    }
  }

  /** Some chosen table answers the entry's key with the entry. */
  ghost predicate ChosenGives(tables: seq<Table>, ids: set<nat>, e: Entry) {
    exists i :: 0 <= i < |tables| && tables[i].id in ids && Lookup(tables[i].entries, e.key) == Some(e.Ver())
  }

  /** The scans return exactly the chosen tables' entries within the bound. */
  lemma ScannedIff(tables: seq<Table>, inputs: seq<Table>, e: Entry)
    requires AreTables(inputs, tables) && TablesSorted(tables)
    ensures FromInput(Inputs(ScansOf(inputs)), e)
            <==> !Less(ScanBound(), e.key) && ChosenGives(tables, NumbersOf(inputs), e)
  {
    hide FromInput, AreTables, Less, Inputs, ScansOf, NumbersOf, Sorted;
    if FromInput(Inputs(ScansOf(inputs)), e) {
      ScannedIsChosen(tables, inputs, e);
    }
    if !Less(ScanBound(), e.key) && ChosenGives(tables, NumbersOf(inputs), e) {
      var i :| 0 <= i < |tables| && tables[i].id in NumbersOf(inputs)
               && Lookup(tables[i].entries, e.key) == Some(e.Ver());
      ChosenIsScanned(tables, inputs, e, i);
    }
  }

  lemma ScannedIsChosen(tables: seq<Table>, inputs: seq<Table>, e: Entry)
    requires AreTables(inputs, tables) && TablesSorted(tables)
    requires FromInput(Inputs(ScansOf(inputs)), e)
    ensures !Less(ScanBound(), e.key) && ChosenGives(tables, NumbersOf(inputs), e)
  {
    hide Sorted, Less;
    BoundedIff(e.key);
    var k, a := InputAt(Inputs(ScansOf(inputs)), e);
    RangeCorrect(inputs[k].entries, [], ScanBound(), true);
    assert e in ScannedForMerge(inputs[k].entries);
    assert inputs[k] in inputs && inputs[k] in tables;
    var i :| 0 <= i < |tables| && tables[i] == inputs[k];
    var b :| 0 <= b < |tables[i].entries| && tables[i].entries[b] == e;
    LookupPresent(tables[i].entries, b);
  }

  lemma ChosenIsScanned(tables: seq<Table>, inputs: seq<Table>, e: Entry, i: nat)
    requires AreTables(inputs, tables) && TablesSorted(tables) && !Less(ScanBound(), e.key)
    requires i < |tables| && tables[i].id in NumbersOf(inputs) && Lookup(tables[i].entries, e.key) == Some(e.Ver())
    ensures FromInput(Inputs(ScansOf(inputs)), e)
  {
    hide Sorted, Less;
    BoundedIff(e.key);
    var lists := Inputs(ScansOf(inputs));
    var b := LookupFound(tables[i].entries, e.key);
    assert tables[i].entries[b] == e;
    assert tables[i] in inputs;
    var k :| 0 <= k < |inputs| && inputs[k] == tables[i];
    RangeCorrect(inputs[k].entries, [], ScanBound(), true);
    assert lists[k] == ScannedForMerge(inputs[k].entries) && e in lists[k];
    var a :| 0 <= a < |lists[k]| && lists[k][a] == e;
    InputFrom(lists, k, a);
  }

  /** The engine's scans of its inputs: safe exactly under the condition on the tables. */
  lemma ScansSafeIff(tables: seq<Table>, inputs: seq<Table>)
    requires AreTables(inputs, tables) && TablesSorted(tables)
    ensures ListsSafe(tables, NumbersOf(inputs), Inputs(ScansOf(inputs))) <==> CompactionSafe(tables, NumbersOf(inputs))
  {
    hide Sorted, Less, AreTables, TablesMap, Inputs, ScansOf, NumbersOf, FromInput, Chosen, Kept, TopStamp, Lookup,
      IsTopVersion;
    var ids, lists := NumbersOf(inputs), Inputs(ScansOf(inputs));
    forall i, key | TopStamp(tables, ids, i, key) && !Less(ScanBound(), key)
      ensures 0 <= i < |tables| && Holds(tables[i], key)
      ensures var v := Lookup(tables[i].entries, key).value;
              IsTopVersion(lists, Entry(key, v.value, v.timestamp))
    {
      TopStampIsTop(tables, inputs, i, key);
    }
    forall e | IsTopVersion(lists, e)
      ensures !Less(ScanBound(), e.key)
      ensures exists i :: TopStamp(tables, ids, i, e.key) && Lookup(tables[i].entries, e.key) == Some(e.Ver())
    {
      var i := TopIsTopStamp(tables, inputs, e);
    }
    forall key | key in TablesMap(Chosen(tables, ids)) ensures InLists(lists, key) <==> !Less(ScanBound(), key) {
      ListedIff(tables, inputs, key);
    }
    SafeBothWays(tables, ids, lists);
  }

  lemma SafeBothWays(tables: seq<Table>, ids: set<nat>, lists: seq<seq<Entry>>)
    requires forall i, key :: TopStamp(tables, ids, i, key) && !Less(ScanBound(), key) ==>
               0 <= i < |tables| && Holds(tables[i], key) &&
               IsTopVersion(lists, Entry(key, Lookup(tables[i].entries, key).value.value,
                                         Lookup(tables[i].entries, key).value.timestamp))
    requires forall e :: IsTopVersion(lists, e) ==>
               !Less(ScanBound(), e.key)
               && exists i :: TopStamp(tables, ids, i, e.key) && Lookup(tables[i].entries, e.key) == Some(e.Ver())
    requires forall key :: key in TablesMap(Chosen(tables, ids)) ==> (InLists(lists, key) <==> !Less(ScanBound(), key))
    ensures ListsSafe(tables, ids, lists) <==> CompactionSafe(tables, ids)
  {
    hide Sorted, Less, TablesMap, FromInput, Chosen, Kept, TopStamp, Lookup, IsTopVersion, InLists;
  }

  lemma TopStampIsTop(tables: seq<Table>, inputs: seq<Table>, i: int, key: ByteString)
    requires AreTables(inputs, tables) && TablesSorted(tables)
    requires TopStamp(tables, NumbersOf(inputs), i, key) && !Less(ScanBound(), key)
    ensures 0 <= i < |tables| && Holds(tables[i], key)
    ensures var v := Lookup(tables[i].entries, key).value;
            IsTopVersion(Inputs(ScansOf(inputs)), Entry(key, v.value, v.timestamp))
  {
    hide Sorted, Less, AreTables, Inputs, ScansOf, NumbersOf, Lookup;
    var lists: seq<seq<Entry>> := Inputs(ScansOf(inputs));
    var v := Lookup(tables[i].entries, key).value;
    ScannedIff(tables, inputs, Entry(key, v.value, v.timestamp));
    forall j, a | 0 <= j < |lists| && 0 <= a < |lists[j]| && lists[j][a].key == key
      ensures lists[j][a].timestamp <= v.timestamp
    {
      assert FromInput(lists, lists[j][a]);
      ScannedIff(tables, inputs, lists[j][a]);
    }
  }

  lemma TopIsTopStamp(tables: seq<Table>, inputs: seq<Table>, e: Entry) returns (i: nat)
    requires AreTables(inputs, tables) && TablesSorted(tables)
    requires IsTopVersion(Inputs(ScansOf(inputs)), e)
    ensures !Less(ScanBound(), e.key)
    ensures TopStamp(tables, NumbersOf(inputs), i, e.key) && Lookup(tables[i].entries, e.key) == Some(e.Ver())
  {
    hide Sorted, Less, AreTables, Inputs, ScansOf, NumbersOf, Lookup, FromInput;
    var lists, ids := Inputs(ScansOf(inputs)), NumbersOf(inputs);
    ScannedIff(tables, inputs, e);
    i :| 0 <= i < |tables| && tables[i].id in ids && Lookup(tables[i].entries, e.key) == Some(e.Ver());
    forall k | 0 <= k < |tables| && tables[k].id in ids && Holds(tables[k], e.key)
      ensures Stamp(tables[k], e.key) <= e.timestamp
    {
      var v := Lookup(tables[k].entries, e.key).value;
      ScannedIff(tables, inputs, Entry(e.key, v.value, v.timestamp));
      var j, a := InputAt(lists, Entry(e.key, v.value, v.timestamp));
    }
  }

  lemma ListedIff(tables: seq<Table>, inputs: seq<Table>, key: ByteString)
    requires AreTables(inputs, tables) && TablesSorted(tables)
    requires key in TablesMap(Chosen(tables, NumbersOf(inputs)))
    ensures InLists(Inputs(ScansOf(inputs)), key) <==> !Less(ScanBound(), key)
  {
    hide Sorted, Less, AreTables, Inputs, ScansOf, NumbersOf, Lookup, FromInput;
    var lists, ids := Inputs(ScansOf(inputs)), NumbersOf(inputs);
    ChosenHolder(tables, ids, key);
    var k :| 0 <= k < |tables| && tables[k].id in ids && Holds(tables[k], key);
    var v := Lookup(tables[k].entries, key).value;
    ScannedIff(tables, inputs, Entry(key, v.value, v.timestamp));
    if InLists(lists, key) {
      var e :| FromInput(lists, e) && e.key == key;
      ScannedIff(tables, inputs, e);
    }
  }

  /** A compaction, with every choice the merge may make on ties, leaves every read unchanged exactly
      when it is safe. */
  lemma TablesCompactionIff(tables: seq<Table>, inputs: seq<Table>, newId: nat)
    requires AreTables(inputs, tables) && TablesSorted(tables)
    ensures EveryMergeKeepsReads(tables, NumbersOf(inputs), Inputs(ScansOf(inputs)), newId)
            <==> CompactionSafe(tables, NumbersOf(inputs))
  {
    hide EveryMergeKeepsReads, CompactionSafe, ListsSafe, AreTables, Inputs, ScansOf;
    CompactionReadsIff(tables, NumbersOf(inputs), Inputs(ScansOf(inputs)), newId);
    ScansSafeIff(tables, inputs);
  }

  /** Scans the inputs, merges them, drops them from the list and appends the output. It aborts
      exactly when a table whose scan is empty is listed before one whose scan is not. */
  method CompactTables(tables: seq<Table>, inputs: seq<Table>, newId: nat) returns (r: Option<seq<Table>>)
    requires AreTables(inputs, tables) && TablesSorted(tables)
    ensures r.None? <==> !Aligned(ScansOf(inputs))
    ensures r.Some? ==>
              exists out :: IsMerge(Inputs(ScansOf(inputs)), out)
                            && r.value == Compacted(tables, NumbersOf(inputs), Table(newId, out))
    ensures r.Some? && CompactionSafe(tables, NumbersOf(inputs)) ==> SameReads(TablesMap(r.value), TablesMap(tables))
  {
    hide Sorted, IsMerge, SameReads, TablesMap, Aligned, Inputs, SortedScans, KeySet, NoFailure, OutOfBounds, ScansOf,
      CompactionSafe, StreamsFaithful, AllAscend, IsStreamMerge;
    assert forall i :: 0 <= i < |inputs| ==> inputs[i] in inputs;
    ScansSorted(inputs);
    var merged := MergeSstables(ScansOf(inputs));
    match merged {
      case IndexPanic => r := None;
      case Merged(out, _, _) =>
        r := Some(Compacted(tables, NumbersOf(inputs), Table(newId, out)));
        TablesCompactionIff(tables, inputs, newId);
    }
  }

  // ---------- when the newest version is among the inputs ----------

  /** The newest table holding a chosen table's key is itself chosen. */
  ghost predicate NewestChosen(tables: seq<Table>, ids: set<nat>) {
    forall i, key :: 0 <= i < |tables| && tables[i].id !in ids && Holds(tables[i], key)
                     && (forall k :: i < k < |tables| ==> !Holds(tables[k], key))
      ==> forall k :: 0 <= k < |tables| && tables[k].id in ids ==> !Holds(tables[k], key)
  }

  /** Among the chosen tables, each version is older than the newest table's by timestamp too, or
      has its value. */
  ghost predicate NewestPrevails(tables: seq<Table>, ids: set<nat>) {
    forall i, j, key :: 0 <= i < j < |tables| && tables[i].id in ids && tables[j].id in ids
                        && Holds(tables[i], key) && Holds(tables[j], key)
                        && (forall k :: j < k < |tables| ==> !Holds(tables[k], key))
      ==> Stamp(tables[i], key) < Stamp(tables[j], key)
          || Lookup(tables[i].entries, key).value.value == Lookup(tables[j].entries, key).value.value
  }

  ghost predicate WithinBound(tables: seq<Table>, ids: set<nat>) {
    forall i, key :: 0 <= i < |tables| && tables[i].id in ids && Holds(tables[i], key) ==> !Less(ScanBound(), key)
  }

  /** Every read survives when no chosen key lies past the bound, the newest holder of every chosen key
      is chosen, and older chosen versions are older by timestamp or have the same value. */
  lemma CompactionPreservesReads(tables: seq<Table>, inputs: seq<Table>, newId: nat)
    requires AreTables(inputs, tables) && TablesSorted(tables)
    requires var ids := NumbersOf(inputs);
             WithinBound(tables, ids) && NewestChosen(tables, ids) && NewestPrevails(tables, ids)
    ensures EveryMergeKeepsReads(tables, NumbersOf(inputs), Inputs(ScansOf(inputs)), newId)
  {
    hide EveryMergeKeepsReads, CompactionSafe, AreTables, Inputs, ScansOf, WithinBound, NewestChosen, NewestPrevails;
    NewestIsSafe(tables, NumbersOf(inputs));
    TablesCompactionIff(tables, inputs, newId);
  }

  lemma NewestIsSafe(tables: seq<Table>, ids: set<nat>)
    requires TablesSorted(tables)
    requires WithinBound(tables, ids) && NewestChosen(tables, ids) && NewestPrevails(tables, ids)
    ensures CompactionSafe(tables, ids)
  {
    hide Sorted, Less, Lookup, TablesMap, Chosen, Kept;
    forall i, key | TopStamp(tables, ids, i, key)
      ensures Read(TablesMap(tables), key) == Some(Lookup(tables[i].entries, key).value.value)
    {
      var j := NewestHolder(tables, key, i);
      assert tables[j].id in ids;
    }
    forall key | key in TablesMap(Chosen(tables, ids)) ensures !Less(ScanBound(), key) {
      ChosenHolder(tables, ids, key);
    }
  }
}
