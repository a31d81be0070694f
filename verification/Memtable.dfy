/** The in-memory table (src/memtable.rs): an ordered map with a running size estimate. */
module Memtables {
  import opened Bytes
  import opened Results
  import opened Entries

  /** Map node overhead plus the timestamp. */
  const ENTRY_OVERHEAD: nat := 40 + 8

  datatype MemState = MemState(data: Contents, sizeBytes: int, maxSize: nat) {
    predicate Full() {
      sizeBytes >= maxSize
    }
  }

  function EmptyState(maxSize: nat): MemState {
    MemState(map[], 0, maxSize)
  }

  /** The state after `put`. An old value of length zero is charged as if the key were new. */
  function PutState(m: MemState, e: Entry): MemState {
    var oldValueSize := if e.key in m.data then |m.data[e.key].value| else 0;
    var delta :=
      if oldValueSize > 0 then |e.value| - oldValueSize
      else |e.key| + |e.value| + ENTRY_OVERHEAD;
    MemState(m.data[e.key := e.Ver()], m.sizeBytes + delta, m.maxSize)
  }

  function RunPuts(m: MemState, puts: seq<Entry>): MemState {
    if puts == [] then m else PutState(RunPuts(m, puts[..|puts| - 1]), puts[|puts| - 1])
  }

  // ---------- accounting ----------

  function EntrySize(key: ByteString, v: Version): nat {
    |key| + |v.value| + 48
  }

  /** The sum of key + value + 48 over the entries of the map. */
  ghost function ExactSize(m: Contents): nat
    decreases |m|
  {
    if m == map[] then 0
    else
      var key :| key in m;
      EntrySize(key, m[key]) + ExactSize(m - {key})
  }

  /** The sum does not depend on the order in which the entries are added up. */
  lemma {:induction false} ExactSizeRemove(m: Contents, key: ByteString)
    requires key in m
    ensures ExactSize(m) == EntrySize(key, m[key]) + ExactSize(m - {key})
    decreases |m|
  {
    var first :| first in m && ExactSize(m) == EntrySize(first, m[first]) + ExactSize(m - {first});
    if first != key {
      ExactSizeRemove(m - {first}, key);
      ExactSizeRemove(m - {key}, first);
      assert m - {first} - {key} == m - {key} - {first};
    }
  }

  lemma ExactSizeUpdate(m: Contents, key: ByteString, v: Version)
    ensures ExactSize(m[key := v]) ==
            ExactSize(m) + EntrySize(key, v) - (if key in m then EntrySize(key, m[key]) else 0)
  {
    var m' := m[key := v];
    ExactSizeRemove(m', key);
    assert m' - {key} == m - {key};
    if key in m {
      ExactSizeRemove(m, key);
    } else {
      assert m - {key} == m;
    }
  }

  /** key + 48 for each put that overwrites an empty value. */
  function EmptyOverwriteCharge(puts: seq<Entry>): nat {
    if puts == [] then 0
    else
      var before := puts[..|puts| - 1];
      var e := puts[|puts| - 1];
      EmptyOverwriteCharge(before)
      + if OverwritesEmpty(puts, |puts| - 1) then |e.key| + 48 else 0
  }

  /** The put at `i` finds its key present with an empty value. */
  predicate OverwritesEmpty(puts: seq<Entry>, i: nat)
    requires i < |puts|
  {
    var before := Replay(puts[..i]);
    puts[i].key in before && before[puts[i].key].value == []
  }

  /** Over any run of puts the contents are the replayed map, and the running size is the exact
      sum plus the charge for overwritten empty values. */
  lemma {:induction false} Accounting(maxSize: nat, puts: seq<Entry>)
    ensures var m := RunPuts(EmptyState(maxSize), puts);
            && m.data == Replay(puts)
            && m.maxSize == maxSize
            && m.sizeBytes == ExactSize(Replay(puts)) + EmptyOverwriteCharge(puts)
            && (m.Full() <==> ExactSize(Replay(puts)) + EmptyOverwriteCharge(puts) >= maxSize)
  {
    if puts != [] {
      var n := |puts| - 1;
      Accounting(maxSize, puts[..n]);
      ExactSizeUpdate(Replay(puts[..n]), puts[n].key, puts[n].Ver());
    }
  }

  /** The running size is exact precisely when no put overwrote an empty value. */
  lemma {:induction false} SizeExactIff(maxSize: nat, puts: seq<Entry>)
    ensures RunPuts(EmptyState(maxSize), puts).sizeBytes == ExactSize(Replay(puts))
            <==> forall i :: 0 <= i < |puts| ==> !OverwritesEmpty(puts, i)
  {
    Accounting(maxSize, puts);
    ChargeZeroIff(puts);
  }

  lemma {:induction false} ChargeZeroIff(puts: seq<Entry>)
    ensures EmptyOverwriteCharge(puts) == 0
            <==> forall i :: 0 <= i < |puts| ==> !OverwritesEmpty(puts, i)
  {
    if puts != [] {
      var n := |puts| - 1;
      ChargeZeroIff(puts[..n]);
      forall i | 0 <= i < n ensures OverwritesEmpty(puts[..n], i) == OverwritesEmpty(puts, i) {
        assert puts[..n][..i] == puts[..i];
      }
    }
  }

  /** Taking the old value's length off the running size never goes below zero. */
  lemma NoUnderflow(m: MemState, e: Entry)
    requires m.sizeBytes >= ExactSize(m.data)
    ensures e.key in m.data ==> m.sizeBytes - |m.data[e.key].value| >= 0
    ensures PutState(m, e).sizeBytes >= ExactSize(PutState(m, e).data)
  {
    ExactSizeUpdate(m.data, e.key, e.Ver());
    if e.key in m.data {
      ExactSizeRemove(m.data, e.key);
    }
  }

  /** Refilling an empty table from the sorted entries of a map gives back that map. */
  lemma RefillRestores(m: Contents, maxSize: nat)
    ensures RunPuts(EmptyState(maxSize), SortedEntries(m)).data == m
  {
    SortedEntriesCorrect(m);
    Accounting(maxSize, SortedEntries(m));
  }

  // ---------- the table object ----------

  class MemTable {
    var data: Contents
    var sizeBytes: nat
    const maxSize: nat

    ghost predicate Valid()
      reads this
    {
      sizeBytes >= ExactSize(data)
    }

    function State(): MemState
      reads this
    {
      MemState(data, sizeBytes, maxSize)
    }

    constructor (maxSize: nat)
      ensures Valid() && State() == EmptyState(maxSize)
    {
      data := map[];
      sizeBytes := 0;
      this.maxSize := maxSize;
    }

    /** Returns whether the table is now full. */
    method Put(key: ByteString, value: ByteString, timestamp: U64) returns (full: bool)
      requires Valid()
      modifies this
      ensures Valid()
      ensures State() == PutState(old(State()), Entry(key, value, timestamp))
      ensures full == (sizeBytes >= maxSize)
    {
      NoUnderflow(State(), Entry(key, value, timestamp));
      var oldValueSize := 0;
      if key in data {
        oldValueSize := |data[key].value|;
      }
      data := data[key := Version(value, timestamp)];
      if oldValueSize > 0 {
        var remaining: nat := sizeBytes - oldValueSize;
        sizeBytes := remaining + |value|;
      } else {
        sizeBytes := sizeBytes + (|key| + |value| + ENTRY_OVERHEAD);
      }
      full := sizeBytes >= maxSize;
    }

    function Get(key: ByteString): Option<Version>
      reads this
    {
      Find(data, key)
    }

    predicate IsEmpty()
      reads this
    {
      data == map[]
    }

    function EntriesWithTimestamps(): seq<Entry>
      reads this
    {
      SortedEntries(data)
    }

    /** The entries with `start <= key < end`; a reversed range aborts, as `BTreeMap::range` does. */
    function ScanWithTimestamps(start: ByteString, end: ByteString): Result<seq<Entry>>
      reads this
    {
      ScanContents(data, start, end)
    }
  }

  function ScanContents(m: Contents, start: ByteString, end: ByteString): Result<seq<Entry>> {
    if Less(end, start) then Err(Panic) else Ok(Range(SortedEntries(m), start, end, false))
  }

  /** A memtable scan aborts on a reversed range; otherwise it is sorted and holds exactly the map's entries
      in the half-open range. */
  lemma ScanContentsCorrect(m: Contents, start: ByteString, end: ByteString)
    ensures var r := ScanContents(m, start, end);
            if Less(end, start) then r == Err(Panic)
            else
              && r.Ok? && Sorted(r.value)
              && forall k :: Lookup(r.value, k) == if AtMost(start, k) && Less(k, end) then Find(m, k) else None
  {
    var es := SortedEntries(m);
    SortedEntriesCorrect(m);
    forall k ensures Lookup(Range(es, start, end, false), k)
                     == if InRange(k, start, end, false) then Find(m, k) else None {
      RangeLookup(es, k, start, end, false);
      LookupIsFind(es, k);
    }
    RangeCorrect(es, start, end, false);
  }

  lemma {:induction false} RangeLookup(
    es: seq<Entry>, k: ByteString, start: ByteString, end: ByteString, inclusive: bool)
    ensures Lookup(Range(es, start, end, inclusive), k)
            == if InRange(k, start, end, inclusive) then Lookup(es, k) else None
  {
    if es != [] {
      RangeLookup(es[1..], k, start, end, inclusive);
      var rest := Range(es[1..], start, end, inclusive);
      assert ([es[0]] + rest)[1..] == rest && [] + rest == rest;
    }
  }
}
