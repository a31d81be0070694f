/** Reading an SSTable file (src/sstable/reader.rs): open, point lookup and range scan. */
module SstReader {
  import opened Bytes
  import opened Results
  import opened Entries
  import opened Varints
  import opened Blocks
  import opened Blooms
  import opened Formats
  import opened TableLayout

  /** The filter assumed when none is stored: sized for 1000 keys at one percent. */
  const NO_FILTER: Filter := EmptyFilter(9586, 7)

  /** `seek` to an offset and `read_exact`: reading past the end is an I/O error. */
  function ReadAt(file: ByteString, offset: nat, size: nat): Result<ByteString> {
    if offset + size > |file| then Err(Io) else Ok(file[offset..offset + size])
  }

  datatype SsTableReader = SsTableReader(
    codec: Codec, hash: HashFn, file: ByteString, index: seq<IndexEntry>, bloomFilter: Filter, header: Header)
  {
    /** The block that may hold the key: the last one whose first key is at most the key. */
    function FindBlockForKey(key: ByteString): (b: Option<nat>)
      ensures b.Some? ==> b.value < |index|
    {
      if index == [] then None
      else if Less(key, index[0].firstKey) then None
      else
        var idx := PartitionPoint(index, key, 0, |index|);
        if idx > 0 then Some(idx - 1) else None
    }

    function ReadBlock(b: nat): Result<seq<Entry>> {
      if b >= |index| then Err(InvalidFormat)
      else
        var compressed :- ReadAt(file, index[b].offset, index[b].size);
        match codec.decompress(compressed)
        case None => Err(CorruptedData)
        case Some(data) => DecodeEntries(data, [])
    }

    /** A filter of zero bits makes hashing divide by zero. */
    function MayContain(key: ByteString): Result<bool> {
      if bloomFilter.numBits == 0 then (if bloomFilter.numHashes == 0 then Ok(true) else Err(Panic))
      else Ok(Contains(hash, bloomFilter, key))
    }

    function Get(key: ByteString): Result<Option<Version>> {
      var possible :- MayContain(key);
      if !possible then Ok(None)
      else
        match FindBlockForKey(key)
        case None => Ok(None)
        case Some(b) =>
          var entries :- ReadBlock(b);
          match SearchBlock(entries, key, 0, |entries|)
          case Some(i) => Ok(Some(entries[i].Ver()))
          case None => Ok(None)
    }

    /** The entries from block `b` on, up to the first key past the end. */
    function ScanFrom(b: nat, start: ByteString, end: ByteString): Result<seq<Entry>>
      decreases |index| - b
    {
      if b >= |index| then Ok([])
      else
        var entries :- ReadBlock(b);
        var (part, passed) := Collect(entries, start, end);
        if passed then Ok(part)
        else
          var more :- ScanFrom(b + 1, start, end);
          Ok(part + more)
    }

    function StartBlock(start: ByteString): nat {
      match FindBlockForKey(start) case Some(b) => b case None => 0
    }

    method Scan(start: ByteString, end: ByteString) returns (r: Result<seq<Entry>>)
      ensures r == ScanFrom(StartBlock(start), start, end)
    {
      hide Collect, StartBlock, Less, ReadBlock;
      var results: seq<Entry> := [];
      var b := StartBlock(start);
      assert forall more: seq<Entry> :: [] + more == more;
      while b < |index|
        invariant ScanFrom(StartBlock(start), start, end) == Prepend(results, ScanFrom(b, start, end))
        decreases |index| - b
      {
        var entries :- ReadBlock(b);
        ghost var done := results;
        ghost var part: seq<Entry> := [];
        assert entries[0..] == entries;
        assert forall more: seq<Entry> :: [] + more == more;
        for i := 0 to |entries|
          invariant Collect(entries, start, end) == Glue(part, Collect(entries[i..], start, end))
          invariant results == done + part
        {
          CollectStep(entries, i, start, end, part);
          if Less(entries[i].key, start) {
            continue;
          }
          if Less(end, entries[i].key) {
            return Ok(results);
          }
          results := results + [entries[i]];
          part := part + [entries[i]];
        }
        assert entries[|entries|..] == [];
        CollectEmpty(start, end);
        assert part + [] == part;
        assert forall more: seq<Entry> :: done + (part + more) == results + more;
        b := b + 1;
      }
      assert results + [] == results;
      return Ok(results);
    }
  }

  /** What collecting adds to the part already collected. */
  function Glue(part: seq<Entry>, r: (seq<Entry>, bool)): (seq<Entry>, bool) {
    (part + r.0, r.1)
  }

  lemma CollectStep(es: seq<Entry>, i: nat, start: ByteString, end: ByteString, part: seq<Entry>)
    requires i < |es|
    ensures var rest := Glue(part, Collect(es[i..], start, end));
            if Less(es[i].key, start) then rest == Glue(part, Collect(es[i + 1..], start, end))
            else if Less(end, es[i].key) then rest == (part, true)
            else rest == Glue(part + [es[i]], Collect(es[i + 1..], start, end))
  {
    assert es[i..][1..] == es[i + 1..];
    assert part + [] == part;
    Regroup(part, [es[i]], Collect(es[i + 1..], start, end).0);
  }

  lemma CollectEmpty(start: ByteString, end: ByteString)
    ensures Collect([], start, end) == ([], false)
  {}

  /** Binary search for the first block whose first key is greater. */
  function PartitionPoint(index: seq<IndexEntry>, key: ByteString, lo: nat, hi: nat): (p: nat)
    requires lo <= hi <= |index|
    ensures lo <= p <= hi
    decreases hi - lo
  {
    if lo == hi then lo
    else
      var mid := lo + (hi - lo) / 2;
      if AtMost(index[mid].firstKey, key) then PartitionPoint(index, key, mid + 1, hi)
      else PartitionPoint(index, key, lo, mid)
  }

  /** Binary search for the key among the entries from `lo` to `hi`. */
  function SearchBlock(es: seq<Entry>, key: ByteString, lo: nat, hi: nat): (r: Option<nat>)
    requires lo <= hi <= |es|
    ensures r.Some? ==> lo <= r.value < hi && es[r.value].key == key
    decreases hi - lo
  {
    if lo == hi then None
    else
      var mid := lo + (hi - lo) / 2;
      if es[mid].key == key then Some(mid)
      else if Less(es[mid].key, key) then SearchBlock(es, key, mid + 1, hi)
      else SearchBlock(es, key, lo, mid)
  }

  /** Skips keys before `start`, and stops at the first key past `end`. */
  function Collect(es: seq<Entry>, start: ByteString, end: ByteString): (seq<Entry>, bool) {
    if es == [] then ([], false)
    else if Less(es[0].key, start) then Collect(es[1..], start, end)
    else if Less(end, es[0].key) then ([], true)
    else
      var (part, passed) := Collect(es[1..], start, end);
      ([es[0]] + part, passed)
  }

  function ReadHeader(file: ByteString): Result<Header> {
    var buf :- ReadAt(file, 0, HEADER_SIZE);
    DecodeHeader(buf)
  }

  function ReadFooter(file: ByteString): Result<Footer> {
    if |file| < FOOTER_SIZE then Err(Io)
    else
      var buf :- ReadAt(file, |file| - FOOTER_SIZE, FOOTER_SIZE);
      DecodeFooter(buf)
  }

  function ReadBloomFilter(file: ByteString, footer: Footer): Result<Filter> {
    if footer.bloomSize == 0 then Ok(NO_FILTER)
    else
      var buf :- ReadAt(file, footer.bloomOffset, footer.bloomSize);
      DecodeFilter(buf)
  }

  function ReadIndex(file: ByteString, footer: Footer): Result<seq<IndexEntry>> {
    var buf :- ReadAt(file, footer.indexOffset, footer.indexSize);
    DecodeIndex(buf)
  }

  function Open(codec: Codec, hash: HashFn, file: ByteString): Result<SsTableReader> {
    var header :- ReadHeader(file);
    var footer :- ReadFooter(file);
    var bloomFilter :- ReadBloomFilter(file, footer);
    var index :- ReadIndex(file, footer);
    Ok(SsTableReader(codec, hash, file, index, bloomFilter, header))
  }

  // ---------- searches on sorted data ----------

  ghost predicate IndexSorted(index: seq<IndexEntry>) {
    forall i, j :: 0 <= i < j < |index| ==> Less(index[i].firstKey, index[j].firstKey)
  }

  lemma {:induction false} PartitionPointCorrect(index: seq<IndexEntry>, key: ByteString, lo: nat, hi: nat)
    requires lo <= hi <= |index| && IndexSorted(index)
    ensures var p := PartitionPoint(index, key, lo, hi);
            (forall i :: lo <= i < p ==> AtMost(index[i].firstKey, key))
            && (forall i :: p <= i < hi ==> Less(key, index[i].firstKey))
    decreases hi - lo
  {
    hide Less, IndexSorted;
    if lo < hi {
      var mid := lo + (hi - lo) / 2;
      var pivot := index[mid].firstKey;
      LessTrichotomy(key, pivot);
      if AtMost(pivot, key) {
        PartitionPointCorrect(index, key, mid + 1, hi);
        forall i | lo <= i < mid ensures AtMost(index[i].firstKey, key) {
          IndexLess(index, i, mid);
          LessAtMostTransitive(index[i].firstKey, pivot, key);
        }
      } else {
        PartitionPointCorrect(index, key, lo, mid);
        forall i | mid < i < hi ensures Less(key, index[i].firstKey) {
          IndexLess(index, mid, i);
          LessTransitive(key, pivot, index[i].firstKey);
        }
      }
    }
  }

  lemma IndexLess(index: seq<IndexEntry>, i: nat, j: nat)
    requires IndexSorted(index) && i < j < |index|
    ensures Less(index[i].firstKey, index[j].firstKey)
  {}

  lemma {:induction false} SearchBlockCorrect(es: seq<Entry>, key: ByteString, lo: nat, hi: nat)
    requires lo <= hi <= |es| && Sorted(es)
    ensures SearchBlock(es, key, lo, hi).None? ==> forall i :: lo <= i < hi ==> es[i].key != key
    decreases hi - lo
  {
    if lo < hi {
      var mid := lo + (hi - lo) / 2;
      LessTrichotomy(es[mid].key, key);
      if es[mid].key == key {
      } else if Less(es[mid].key, key) {
        SearchBlockCorrect(es, key, mid + 1, hi);
        forall i | lo <= i < mid ensures es[i].key != key {
          LessTrichotomy(es[i].key, es[mid].key);
          assert Less(es[i].key, es[mid].key);
        }
      } else {
        SearchBlockCorrect(es, key, lo, mid);
        forall i | mid < i < hi ensures es[i].key != key {
          assert Less(es[mid].key, es[i].key);
        }
      }
    }
  }

  /** Searching a sorted block is list lookup. */
  lemma SearchIsLookup(es: seq<Entry>, key: ByteString)
    requires Sorted(es)
    ensures Lookup(es, key) == match SearchBlock(es, key, 0, |es|) case Some(i) => Some(es[i].Ver()) case None => None
  {
    SearchBlockCorrect(es, key, 0, |es|);
    match SearchBlock(es, key, 0, |es|) {
      case Some(i) => LookupPresent(es, i);
      case None => LookupAbsent(es, key);
    }
  }

  /** On a sorted list, collecting is the inclusive range, and having passed the end means no
      later key can qualify. */
  lemma {:induction false} CollectIsRange(es: seq<Entry>, start: ByteString, end: ByteString)
    requires Sorted(es)
    ensures Collect(es, start, end).0 == Range(es, start, end, true)
    ensures Collect(es, start, end).1 ==> exists i :: 0 <= i < |es| && Less(end, es[i].key)
    ensures !Less(end, start) && !Collect(es, start, end).1 ==>
              forall i :: 0 <= i < |es| ==> !Less(end, es[i].key)
  {
    if es != [] {
      var key := es[0].key;
      LessTrichotomy(key, start);
      LessTrichotomy(key, end);
      CollectIsRange(es[1..], start, end);
      assert forall i :: 0 < i < |es| ==> es[i] == es[1..][i - 1];
      if Less(key, start) {
        if Less(end, key) {
          LessTransitive(end, key, start);
        }
        if Collect(es[1..], start, end).1 {
          var i :| 0 <= i < |es| - 1 && Less(end, es[1..][i].key);
          assert es[i + 1] == es[1..][i];
        }
      } else if Less(end, key) {
        forall i | 0 <= i < |es| ensures Less(end, es[i].key) {
          if i > 0 {
            LessTransitive(end, key, es[i].key);
          }
        }
        RangeBeyond(es, start, end);
      } else if Collect(es[1..], start, end).1 {
        var i :| 0 <= i < |es| - 1 && Less(end, es[1..][i].key);
        assert es[i + 1] == es[1..][i];
      }
    }
  }

  /** No entry past the end of a range is in it. */
  lemma {:induction false} RangeBeyond(es: seq<Entry>, start: ByteString, end: ByteString)
    requires forall i :: 0 <= i < |es| ==> Less(end, es[i].key)
    ensures Range(es, start, end, true) == []
  {
    if es != [] {
      LessTrichotomy(es[0].key, end);
      RangeBeyond(es[1..], start, end);
    }
  }

  lemma {:induction false} RangeBefore(es: seq<Entry>, start: ByteString, end: ByteString)
    requires forall i :: 0 <= i < |es| ==> Less(es[i].key, start)
    ensures Range(es, start, end, true) == []
  {
    if es != [] {
      LessTrichotomy(es[0].key, start);
      RangeBefore(es[1..], start, end);
    }
  }

  // ---------- any reader, damaged blocks included ----------

  /** How reading a block fails: no such block, a place past the end of the file, or bytes there that do not
      decompress or decode. */
  lemma BlockErrors(r: SsTableReader, b: nat, e: Error)
    ensures r.ReadBlock(b) == Err(e) <==>
            if b >= |r.index| then e == InvalidFormat
            else
              var from, upTo := r.index[b].offset, r.index[b].offset + r.index[b].size;
              if upTo > |r.file| then e == Io
              else e == CorruptedData && var data := r.codec.decompress(r.file[from..upTo]);
                                         data.None? || DecodeEntries(data.value, []).Err?
  {
    hide DecodeEntries;
    if b < |r.index| && r.index[b].offset + r.index[b].size <= |r.file| {
      var data := r.codec.decompress(r.file[r.index[b].offset..r.index[b].offset + r.index[b].size]);
      if data.Some? {
        DecodeErrors(data.value, []);
      }
    }
  }

  /** Block `b` is the only one whose range of keys the key falls into. */
  ghost predicate IsCandidate(r: SsTableReader, key: ByteString, b: nat) {
    && b < |r.index| && AtMost(r.index[b].firstKey, key)
    && (b + 1 < |r.index| ==> Less(key, r.index[b + 1].firstKey))
  }

  lemma CandidateFound(r: SsTableReader, key: ByteString, b: nat)
    requires IndexSorted(r.index) && IsCandidate(r, key, b)
    ensures r.FindBlockForKey(key) == Some(b)
  {
    hide IndexSorted;
    var p := PartitionPoint(r.index, key, 0, |r.index|);
    PartitionPointCorrect(r.index, key, 0, |r.index|);
    forall i | 0 <= i < |r.index| ensures AtMost(r.index[i].firstKey, key) <==> i <= b {
      var first := r.index[i].firstKey;
      LessTrichotomy(key, first);
      if i < b {
        IndexLess(r.index, i, b);
        LessAtMostTransitive(first, r.index[b].firstKey, key);
      } else if i > b + 1 {
        IndexLess(r.index, b + 1, i);
        LessTransitive(key, r.index[b + 1].firstKey, first);
      }
    }
    LessTrichotomy(key, r.index[0].firstKey);
    PivotsApart(r.index, key, p);
  }

  lemma PivotsApart(index: seq<IndexEntry>, key: ByteString, p: nat)
    requires p <= |index| && forall i :: p <= i < |index| ==> Less(key, index[i].firstKey)
    ensures forall i :: p <= i < |index| ==> !AtMost(index[i].firstKey, key)
  {
    forall i | p <= i < |index| ensures !AtMost(index[i].firstKey, key) {
      LessTrichotomy(key, index[i].firstKey);
    }
  }

  /** Whatever the file holds: a key the filter rejects is absent without a look at any block; for any other
      key the answer, or the error, is that of its candidate block alone. */
  lemma GetExactly(r: SsTableReader, key: ByteString, b: nat)
    requires r.bloomFilter.numBits > 0 && IndexSorted(r.index) && IsCandidate(r, key, b)
    ensures !Contains(r.hash, r.bloomFilter, key) ==> r.Get(key) == Ok(None)
    ensures Contains(r.hash, r.bloomFilter, key) && r.ReadBlock(b).Err? ==> r.Get(key) == Err(r.ReadBlock(b).error)
    ensures Contains(r.hash, r.bloomFilter, key) && r.ReadBlock(b).Ok? && Sorted(r.ReadBlock(b).value) ==>
              r.Get(key) == Ok(Lookup(r.ReadBlock(b).value, key))
  {
    hide SsTableReader.ReadBlock, SsTableReader.FindBlockForKey, SearchBlock, Lookup, Contains, IndexSorted;
    CandidateFound(r, key, b);
    if r.ReadBlock(b).Ok? && Sorted(r.ReadBlock(b).value) {
      SearchIsLookup(r.ReadBlock(b).value, key);
    }
  }

  /** A file without a filter is read with an empty one, which rejects every key. */
  lemma NoFilterFindsNothing(codec: Codec, hash: HashFn, file: ByteString, key: ByteString)
    requires Open(codec, hash, file).Ok? && ReadFooter(file).value.bloomSize == 0
    ensures Open(codec, hash, file).value.Get(key) == Ok(None)
  {
    hide BitOf, ReadHeader, ReadIndex;
    var r := Open(codec, hash, file).value;
    var p := Position(r.hash, key, 0, 9586);
    NoBits(p % 8);
    assert Positions(r.hash, key, 7, 9586)[0] == p;
    assert NO_FILTER.bits[p / 8] == 0;
    assert !GetBit(NO_FILTER.bits, p);
  }

  // ---------- a reader over given blocks ----------

  /** Block lists whose concatenation is sorted, seen block by block. */
  ghost predicate SortedBlocks(blocks: seq<seq<Entry>>) {
    && (forall i :: 0 <= i < |blocks| ==> Sorted(blocks[i]))
    && forall i, j, a, b :: 0 <= i < j < |blocks| && 0 <= a < |blocks[i]| && 0 <= b < |blocks[j]|
         ==> Less(blocks[i][a].key, blocks[j][b].key)
  }

  lemma SortedParts(a: seq<Entry>, b: seq<Entry>)
    requires Sorted(a + b)
    ensures Sorted(a) && Sorted(b)
    ensures forall x, y :: 0 <= x < |a| && 0 <= y < |b| ==> Less(a[x].key, b[y].key)
  {
    assert forall x :: 0 <= x < |a| ==> (a + b)[x] == a[x];
    forall y | 0 <= y < |b| ensures (a + b)[|a| + y] == b[y] {}
    forall x, y | 0 <= x < |a| && 0 <= y < |b| ensures Less(a[x].key, b[y].key) {
      assert (a + b)[|a| + y] == b[y];
    }
    forall x, y | 0 <= x < y < |b| ensures Less(b[x].key, b[y].key) {
      assert (a + b)[|a| + x] == b[x] && (a + b)[|a| + y] == b[y];
    }
  }

  lemma {:induction false} BlockInFlatten(blocks: seq<seq<Entry>>, i: nat, b: nat) returns (at: nat)
    requires i < |blocks| && b < |blocks[i]|
    ensures at < |Flatten(blocks)| && Flatten(blocks)[at] == blocks[i][b]
  {
    if i == 0 {
      at := b;
    } else {
      at := BlockInFlatten(blocks[1..], i - 1, b);
      at := |blocks[0]| + at;
    }
  }

  lemma {:induction false} FlattenSorted(blocks: seq<seq<Entry>>)
    requires Sorted(Flatten(blocks))
    ensures SortedBlocks(blocks)
  {
    if blocks != [] {
      SortedParts(blocks[0], Flatten(blocks[1..]));
      FlattenSorted(blocks[1..]);
      forall j, a, b | 0 < j < |blocks| && 0 <= a < |blocks[0]| && 0 <= b < |blocks[j]|
        ensures Less(blocks[0][a].key, blocks[j][b].key)
      {
        var at := BlockInFlatten(blocks[1..], j - 1, b);
      }
      forall i, j, a, b | 0 < i < j < |blocks| && 0 <= a < |blocks[i]| && 0 <= b < |blocks[j]|
        ensures Less(blocks[i][a].key, blocks[j][b].key)
      {
        assert blocks[i] == blocks[1..][i - 1] && blocks[j] == blocks[1..][j - 1];
      }
    }
  }

  /** The reader's index and blocks are these, and its filter admits every key in them. */
  ghost predicate Serves(r: SsTableReader, blocks: seq<seq<Entry>>) {
    && |r.index| == |blocks|
    && NoEmptyBlock(blocks)
    && (forall i :: 0 <= i < |blocks| ==> r.index[i].firstKey == blocks[i][0].key)
    && (forall i :: 0 <= i < |blocks| ==> r.ReadBlock(i) == Ok(blocks[i]))
    && r.bloomFilter.numBits > 0
    && forall i :: 0 <= i < |Flatten(blocks)| ==> Contains(r.hash, r.bloomFilter, Flatten(blocks)[i].key)
  }

  /** Only the block found can hold the key. */
  lemma FoundBlock(r: SsTableReader, blocks: seq<seq<Entry>>, key: ByteString)
    requires Serves(r, blocks) && SortedBlocks(blocks)
    ensures var found := r.FindBlockForKey(key);
            && (found.None? ==>
                  forall i, a :: 0 <= i < |blocks| && 0 <= a < |blocks[i]| ==> Less(key, blocks[i][a].key))
            && (found.Some? ==>
                  forall i, a :: 0 <= i < found.value && 0 <= a < |blocks[i]| ==> Less(blocks[i][a].key, key))
            && (found.Some? ==>
                  forall i, a :: found.value < i < |blocks| && 0 <= a < |blocks[i]| ==> Less(key, blocks[i][a].key))
  {
    hide SsTableReader.ReadBlock, Contains, Flatten;
    forall i, j | 0 <= i < j < |r.index| ensures Less(r.index[i].firstKey, r.index[j].firstKey) {}
    PartitionPointCorrect(r.index, key, 0, |r.index|);
    match r.FindBlockForKey(key) {
      case None =>
        forall i, a | 0 <= i < |blocks| && 0 <= a < |blocks[i]| ensures Less(key, blocks[i][a].key) {
          LessTrichotomy(key, r.index[0].firstKey);
          KeyBeforeBlock(blocks, 0, key, i, a);
        }
      case Some(f) =>
        forall i, a | 0 <= i < f && 0 <= a < |blocks[i]| ensures Less(blocks[i][a].key, key) {
          LessAtMostTransitive(blocks[i][a].key, blocks[f][0].key, key);
        }
        forall i, a | f < i < |blocks| && 0 <= a < |blocks[i]| ensures Less(key, blocks[i][a].key) {
          KeyBeforeBlock(blocks, f + 1, key, i, a);
        }
    }
  }

  lemma KeyBeforeBlock(blocks: seq<seq<Entry>>, f: nat, key: ByteString, i: nat, a: nat)
    requires SortedBlocks(blocks) && NoEmptyBlock(blocks)
    requires f <= i < |blocks| && a < |blocks[i]| && Less(key, blocks[f][0].key)
    ensures Less(key, blocks[i][a].key)
  {
    if i != f || a != 0 {
      LessTransitive(key, blocks[f][0].key, blocks[i][a].key);
    }
  }

  lemma {:induction false} LookupFlatten(blocks: seq<seq<Entry>>, key: ByteString, b: nat)
    requires b < |blocks|
    requires forall i, a :: 0 <= i < |blocks| && i != b && 0 <= a < |blocks[i]| ==> blocks[i][a].key != key
    ensures Lookup(Flatten(blocks), key) == Lookup(blocks[b], key)
  {
    var rest := blocks[1..];
    LookupConcat(blocks[0], Flatten(rest), key);
    if b == 0 {
      forall i | 0 <= i < |rest| ensures rest[i] == blocks[i + 1] {}
      LookupFlattenAbsent(rest, key);
    } else {
      LookupAbsent(blocks[0], key);
      forall i | 0 <= i < |rest| ensures rest[i] == blocks[i + 1] {}
      LookupFlatten(rest, key, b - 1);
    }
  }

  lemma {:induction false} LookupFlattenAbsent(blocks: seq<seq<Entry>>, key: ByteString)
    requires forall i, a :: 0 <= i < |blocks| && 0 <= a < |blocks[i]| ==> blocks[i][a].key != key
    ensures Lookup(Flatten(blocks), key) == None
  {
    if blocks != [] {
      LookupAbsent(blocks[0], key);
      LookupFlattenAbsent(blocks[1..], key);
      LookupConcat(blocks[0], Flatten(blocks[1..]), key);
    }
  }

  /** Indexed lookup is list lookup, for present and absent keys. */
  lemma GetIsLookup(r: SsTableReader, blocks: seq<seq<Entry>>, key: ByteString)
    requires Serves(r, blocks) && Sorted(Flatten(blocks))
    ensures r.Get(key) == Ok(Lookup(Flatten(blocks), key))
  {
    hide SsTableReader.ReadBlock, SearchBlock, SsTableReader.FindBlockForKey;
    var es := Flatten(blocks);
    FlattenSorted(blocks);
    LessIrreflexive(key);
    if !Contains(r.hash, r.bloomFilter, key) {
      LookupAbsent(es, key);
    } else {
      FoundBlock(r, blocks, key);
      match r.FindBlockForKey(key) {
        case None => LookupFlattenAbsent(blocks, key);
        case Some(b) =>
          SearchIsLookup(blocks[b], key);
          LookupFlatten(blocks, key, b);
      }
    }
  }

  /** From block `b` on, the scan is the inclusive range of the remaining entries. */
  lemma {:induction false} ScanFromIsRange(r: SsTableReader, blocks: seq<seq<Entry>>, b: nat,
                                           start: ByteString, end: ByteString)
    requires Serves(r, blocks) && SortedBlocks(blocks) && b <= |blocks|
    ensures r.ScanFrom(b, start, end) == Ok(Range(Flatten(blocks[b..]), start, end, true))
    decreases |blocks| - b
  {
    hide SsTableReader.ReadBlock, Collect, Contains;
    if b < |blocks| {
      var rest := blocks[b + 1..];
      assert blocks[b..][1..] == rest;
      CollectIsRange(blocks[b], start, end);
      RangeConcat(blocks[b], Flatten(rest), start, end, true);
      if Collect(blocks[b], start, end).1 {
        var a :| 0 <= a < |blocks[b]| && Less(end, blocks[b][a].key);
        AllBeyond(blocks, b, a, end, rest);
        RangeBeyond(Flatten(rest), start, end);
        assert Range(blocks[b], start, end, true) + [] == Range(blocks[b], start, end, true);
      } else {
        ScanFromIsRange(r, blocks, b + 1, start, end);
      }
    }
  }

  /** A scan ends with the block that holds a key past the end: later blocks are not read. */
  lemma {:induction false} ScanStops(r: SsTableReader, blocks: seq<seq<Entry>>, b: nat, last: Entry,
                                     start: ByteString, end: ByteString)
    requires b < |blocks| <= |r.index| && SortedBlocks(blocks) && !Less(end, start)
    requires forall i :: b <= i < |blocks| ==> r.ReadBlock(i) == Ok(blocks[i])
    requires last in blocks[|blocks| - 1] && Less(end, last.key)
    ensures r.ScanFrom(b, start, end) == Ok(Range(Flatten(blocks[b..]), start, end, true))
    decreases |blocks| - b
  {
    hide SsTableReader.ReadBlock, Collect;
    var rest := blocks[b + 1..];
    assert blocks[b..][1..] == rest;
    CollectIsRange(blocks[b], start, end);
    RangeConcat(blocks[b], Flatten(rest), start, end, true);
    if Collect(blocks[b], start, end).1 {
      var a :| 0 <= a < |blocks[b]| && Less(end, blocks[b][a].key);
      AllBeyond(blocks, b, a, end, rest);
      RangeBeyond(Flatten(rest), start, end);
      assert Range(blocks[b], start, end, true) + [] == Range(blocks[b], start, end, true);
    } else {
      ScanStops(r, blocks, b + 1, last, start, end);
    }
  }

  /** A block that cannot be read, and is reached before a key past the end, fails the scan. */
  lemma {:induction false} ScanFails(r: SsTableReader, blocks: seq<seq<Entry>>, b: nat,
                                     start: ByteString, end: ByteString)
    requires b <= |blocks| < |r.index| && SortedBlocks(blocks)
    requires forall i :: b <= i < |blocks| ==> r.ReadBlock(i) == Ok(blocks[i])
    requires forall i, a :: b <= i < |blocks| && 0 <= a < |blocks[i]| ==> !Less(end, blocks[i][a].key)
    requires r.ReadBlock(|blocks|).Err?
    ensures r.ScanFrom(b, start, end) == Err(r.ReadBlock(|blocks|).error)
    decreases |blocks| - b
  {
    hide SsTableReader.ReadBlock, Collect;
    if b < |blocks| {
      CollectIsRange(blocks[b], start, end);
      ScanFails(r, blocks, b + 1, start, end);
    }
  }

  lemma AllBeyond(blocks: seq<seq<Entry>>, b: nat, a: nat, end: ByteString, rest: seq<seq<Entry>>)
    requires SortedBlocks(blocks) && b < |blocks| && a < |blocks[b]| && Less(end, blocks[b][a].key)
    requires rest == blocks[b + 1..]
    ensures forall i :: 0 <= i < |Flatten(rest)| ==> Less(end, Flatten(rest)[i].key)
  {
    forall i | 0 <= i < |Flatten(rest)| ensures Less(end, Flatten(rest)[i].key) {
      var j, c := FlattenOrigin(rest, i);
      assert rest[j] == blocks[b + 1 + j];
      LessTransitive(end, blocks[b][a].key, rest[j][c].key);
    }
  }

  lemma {:induction false} FlattenOrigin(blocks: seq<seq<Entry>>, at: nat) returns (i: nat, b: nat)
    requires at < |Flatten(blocks)|
    ensures i < |blocks| && b < |blocks[i]| && Flatten(blocks)[at] == blocks[i][b]
  {
    if at < |blocks[0]| {
      i, b := 0, at;
    } else {
      i, b := FlattenOrigin(blocks[1..], at - |blocks[0]|);
      i := i + 1;
    }
  }

  /** A scan is exactly the entries from `start` to `end`, both included, in order. */
  lemma ScanIsRange(r: SsTableReader, blocks: seq<seq<Entry>>, start: ByteString, end: ByteString)
    requires Serves(r, blocks) && Sorted(Flatten(blocks))
    ensures r.ScanFrom(r.StartBlock(start), start, end) == Ok(Range(Flatten(blocks), start, end, true))
  {
    hide SsTableReader.ReadBlock, SsTableReader.FindBlockForKey, SsTableReader.ScanFrom, Contains, Range;
    FlattenSorted(blocks);
    FoundBlock(r, blocks, start);
    var b := r.StartBlock(start);
    ScanFromIsRange(r, blocks, b, start, end);
    assert blocks == blocks[..b] + blocks[b..];
    FlattenConcat(blocks[..b], blocks[b..]);
    RangeConcat(Flatten(blocks[..b]), Flatten(blocks[b..]), start, end, true);
    forall i | 0 <= i < |Flatten(blocks[..b])| ensures Less(Flatten(blocks[..b])[i].key, start) {
      var j, c := FlattenOrigin(blocks[..b], i);
      assert blocks[..b][j] == blocks[j];
    }
    RangeBefore(Flatten(blocks[..b]), start, end);
    assert [] + Range(Flatten(blocks[b..]), start, end, true) == Range(Flatten(blocks[b..]), start, end, true);
  }

  // ---------- a file written for given blocks ----------

  lemma FiveParts(a: ByteString, b: ByteString, c: ByteString, d: ByteString, e: ByteString)
    ensures var s := a + b + c + d + e;
            && s[0..0 + |a|] == a
            && s[|a|..|a| + |b|] == b
            && s[|a| + |b|..|a| + |b| + |c|] == c
            && s[|a| + |b| + |c|..|a| + |b| + |c| + |d|] == d
            && s[|s| - |e|..|s| - |e| + |e|] == e
  {}

  /** Within the stored widths the footer's casts lose nothing. */
  lemma FooterExact(dataSize: nat, bloomSize: nat, indexSize: nat)
    requires bloomSize < 0x1_0000_0000 && indexSize < 0x1_0000_0000
    requires HEADER_SIZE + dataSize + bloomSize < WORD
    ensures FooterOf(dataSize, bloomSize, indexSize) ==
            Footer(HEADER_SIZE + dataSize + bloomSize, HEADER_SIZE + dataSize, indexSize, bloomSize, 0)
  {}

  /** The four parts of an assembled file are found where the footer says. */
  lemma AssembledParts(header: Header, data: ByteString, bloom: ByteString, index: ByteString)
    requires header.magic == MAGIC_NUMBER
    requires 0 < |bloom| < 0x1_0000_0000 && |index| < 0x1_0000_0000
    requires |Assembled(header, data, bloom, index)| < WORD
    ensures var file := Assembled(header, data, bloom, index);
            var footer := FooterOf(|data|, |bloom|, |index|);
            && ReadHeader(file) == Ok(header)
            && ReadFooter(file) == Ok(footer)
            && ReadBloomFilter(file, footer) == DecodeFilter(bloom)
            && ReadIndex(file, footer) == DecodeIndex(index)
            && HEADER_SIZE + |data| <= |file| && file[HEADER_SIZE..HEADER_SIZE + |data|] == data
  {
    hide HeaderBytes, FooterBytes, DecodeHeader, DecodeFooter, DecodeFilter, DecodeIndex, FooterOf;
    var footer := FooterOf(|data|, |bloom|, |index|);
    FooterExact(|data|, |bloom|, |index|);
    HeaderRoundTrip(header);
    FooterRoundTrip(footer);
    FiveParts(HeaderBytes(header), data, bloom, index, FooterBytes(footer));
  }
}
