/** SSTables as a list, oldest first: what readers see through it, and which table decides. */
module Tables {
  import opened Bytes
  import opened Results
  import opened Entries
  import opened Numbers

  /** A registered SSTable: its file number and its sorted entries. */
  datatype Table = Table(id: nat, entries: seq<Entry>)

  // ---------- reading ----------

  /** The contents seen through the tables: later tables win. */
  function TablesMap(tables: seq<Table>): Contents {
    if tables == [] then map[]
    else TablesMap(tables[..|tables| - 1]) + Replay(tables[|tables| - 1].entries)
  }

  function Read(m: Contents, key: ByteString): Option<ByteString> {
    if key in m then Some(m[key].value) else None
  }

  ghost predicate SameReads(a: Contents, b: Contents) {
    forall key :: Read(a, key) == Read(b, key)
  }

  /** The newest table holding the key decides. */
  function TablesGet(tables: seq<Table>, key: ByteString): Option<ByteString> {
    if tables == [] then None
    else
      var last := tables[|tables| - 1];
      match Lookup(last.entries, key)
      case Some(v) => Some(v.value)
      case None => TablesGet(tables[..|tables| - 1], key)
  }

  ghost predicate TablesSorted(tables: seq<Table>) {
    forall i :: 0 <= i < |tables| ==> Sorted(tables[i].entries)
  }

  lemma {:induction false} TablesGetIsMap(tables: seq<Table>, key: ByteString)
    requires TablesSorted(tables)
    ensures TablesGet(tables, key) == Read(TablesMap(tables), key)
  {
    if tables != [] {
      TablesGetIsMap(tables[..|tables| - 1], key);
      LookupIsFind(tables[|tables| - 1].entries, key);
    }
  }

  lemma TablesMapAppend(tables: seq<Table>, t: Table)
    ensures TablesMap(tables + [t]) == TablesMap(tables) + Replay(t.entries)
  {
    assert (tables + [t])[..|tables|] == tables;
  }

  lemma TablesMapOne(t: Table)
    ensures TablesMap([t]) == Replay(t.entries)
  {
    hide Replay;
    assert [t][..0] == [];
  }

  lemma {:induction false} TablesMapConcat(a: seq<Table>, b: seq<Table>)
    ensures TablesMap(a + b) == TablesMap(a) + TablesMap(b)
  {
    hide Replay;
    if b == [] {
      assert a + b == a;
    } else {
      hide TablesMap;
      var front, last := b[..|b| - 1], b[|b| - 1];
      assert b == front + [last];
      Regroup(a, front, [last]);
      TablesMapConcat(a, front);
      TablesMapAppend(a + front, last);
      TablesMapAppend(front, last);
      UnionAssociates(TablesMap(a), TablesMap(front), Replay(last.entries));
    }
  }

  // ---------- which table decides ----------

  predicate Holds(t: Table, key: ByteString) {
    Lookup(t.entries, key).Some?
  }

  function Stamp(t: Table, key: ByteString): U64
    requires Holds(t, key)
  {
    Lookup(t.entries, key).value.timestamp
  }

  /** The last table holding the key decides what the tables answer. */
  lemma {:induction false} NewestHolder(tables: seq<Table>, key: ByteString, i: nat) returns (j: nat)
    requires TablesSorted(tables) && i < |tables| && Holds(tables[i], key)
    ensures i <= j < |tables| && Holds(tables[j], key)
    ensures forall k :: j < k < |tables| ==> !Holds(tables[k], key)
    ensures Find(TablesMap(tables), key) == Lookup(tables[j].entries, key)
  {
    var n := |tables| - 1;
    LookupIsFind(tables[n].entries, key);
    if Holds(tables[n], key) {
      j := n;
    } else {
      var front := tables[..n];
      j := NewestHolder(front, key, i);
      forall k | j < k < |tables| ensures !Holds(tables[k], key) {
        assert k < n ==> front[k] == tables[k];
      }
    }
  }

  // ---------- tables on disk ----------

  function TablesIn(disk: map<nat, seq<Entry>>, order: seq<nat>): seq<Table>
    requires forall id :: id in order ==> id in disk
  {
    seq(|order|, i requires 0 <= i < |order| => Table(order[i], disk[order[i]]))
  }

  /** The table files sorted by number. */
  function TablesOnDisk(disk: map<nat, seq<Entry>>): seq<Table> {
    TablesIn(disk, Ascending(disk.Keys))
  }
}
