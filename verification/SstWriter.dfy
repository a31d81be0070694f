/** Writing an SSTable file (src/sstable/writer.rs), and the proof that reading it back is
    looking the entries up in the list that was written. */
module SstWriter {
  import opened Bytes
  import opened Results
  import opened Entries
  import opened Varints
  import opened Blocks
  import opened Blooms
  import opened Formats
  import opened TableLayout
  import opened SstReader

  /** The blocks already written and the entries of the one being built. */
  datatype Progress = Progress(blocks: seq<seq<Entry>>, current: seq<Entry>) {
    function All(): seq<Entry> {
      Flatten(blocks) + current
    }
  }

  function FlushProgress(s: Progress): Progress {
    if s.current == [] then s else Progress(s.blocks + [s.current], [])
  }

  /** A block is closed as soon as its encoded size reaches the block size. */
  function AddProgress(s: Progress, blockSize: nat, e: Entry): Progress {
    var t := Added(s, e);
    if IsFullBlock(t.current, blockSize) then FlushProgress(t) else t
  }

  function Added(s: Progress, e: Entry): Progress {
    Progress(s.blocks, s.current + [e])
  }

  predicate IsFullBlock(block: seq<Entry>, blockSize: nat) {
    |EncodeEntries([], block)| >= blockSize
  }

  predicate AllCompressible(codec: Codec, blocks: seq<seq<Entry>>) {
    forall i :: 0 <= i < |blocks| ==> Compressible(codec, blocks[i])
  }

  function SplitBlocks(es: seq<Entry>, blockSize: nat): Progress {
    if es == [] then Progress([], [])
    else AddProgress(SplitBlocks(es[..|es| - 1], blockSize), blockSize, es[|es| - 1])
  }

  /** The blocks of the finished file. */
  function BlocksOf(es: seq<Entry>, blockSize: nat): seq<seq<Entry>> {
    FlushProgress(SplitBlocks(es, blockSize)).blocks
  }

  lemma FlushProgressAll(s: Progress)
    requires NoEmptyBlock(s.blocks)
    ensures FlushProgress(s).All() == s.All()
    ensures NoEmptyBlock(FlushProgress(s).blocks) && FlushProgress(s).current == []
  {
    if s.current != [] {
      FlattenAppend(s.blocks, s.current);
      assert Flatten(FlushProgress(s).blocks) + [] == s.All();
    }
  }

  lemma AddProgressAll(s: Progress, blockSize: nat, e: Entry)
    requires NoEmptyBlock(s.blocks)
    ensures AddProgress(s, blockSize, e).All() == s.All() + [e]
    ensures NoEmptyBlock(AddProgress(s, blockSize, e).blocks)
  {
    hide EncodeEntries;
    var t := Progress(s.blocks, s.current + [e]);
    Regroup(Flatten(s.blocks), s.current, [e]);
    FlushProgressAll(t);
  }

  /** Splitting loses nothing: the blocks are non-empty and hold the entries in order, whatever
      the block size. */
  lemma {:induction false} BlocksOfCorrect(es: seq<Entry>, blockSize: nat)
    ensures SplitBlocks(es, blockSize).All() == es && NoEmptyBlock(SplitBlocks(es, blockSize).blocks)
    ensures Flatten(BlocksOf(es, blockSize)) == es && NoEmptyBlock(BlocksOf(es, blockSize))
  {
    if es != [] {
      var n := |es| - 1;
      BlocksOfCorrect(es[..n], blockSize);
      AddProgressAll(SplitBlocks(es[..n], blockSize), blockSize, es[n]);
      assert es == es[..n] + [es[n]];
    }
    var done := FlushProgress(SplitBlocks(es, blockSize));
    FlushProgressAll(SplitBlocks(es, blockSize));
    assert Flatten(done.blocks) + [] == Flatten(done.blocks);
  }

  /** No proper front of the block reaches the block size. */
  ghost predicate FullOnlyAtEnd(block: seq<Entry>, blockSize: nat) {
    forall n :: 0 < n < |block| ==> |EncodeEntries([], block[..n])| < blockSize
  }

  /** Every closed block reaches the block size in bytes, with its last entry only; the open one does not
      reach it. */
  lemma {:induction false} SplitSizes(es: seq<Entry>, blockSize: nat)
    ensures var s := SplitBlocks(es, blockSize);
            && (forall i :: 0 <= i < |s.blocks| ==>
                  |EncodeEntries([], s.blocks[i])| >= blockSize && FullOnlyAtEnd(s.blocks[i], blockSize))
            && FullOnlyAtEnd(s.current, blockSize)
            && (s.current != [] ==> |EncodeEntries([], s.current)| < blockSize)
  {
    hide EncodeEntries;
    if es != [] {
      var n := |es| - 1;
      SplitSizes(es[..n], blockSize);
      var before := SplitBlocks(es[..n], blockSize).current;
      FrontsStay(before, es[n], blockSize);
    }
  }

  lemma FrontsStay(block: seq<Entry>, e: Entry, blockSize: nat)
    requires FullOnlyAtEnd(block, blockSize) && (block != [] ==> |EncodeEntries([], block)| < blockSize)
    ensures FullOnlyAtEnd(block + [e], blockSize)
  {
    hide EncodeEntries;
    forall n | 0 < n < |block + [e]| ensures |EncodeEntries([], (block + [e])[..n])| < blockSize {
      assert (block + [e])[..n] == block[..n];
      assert block[..|block|] == block;
    }
  }

  /** Where the blocks end: every block but the last has reached the block size in bytes, and no block
      had reached it before its last entry. */
  lemma BlockSizes(es: seq<Entry>, blockSize: nat)
    ensures var blocks := BlocksOf(es, blockSize);
            && (forall i :: 0 <= i < |blocks| - 1 ==> |EncodeEntries([], blocks[i])| >= blockSize)
            && forall i :: 0 <= i < |blocks| ==>
                 forall n :: 0 < n < |blocks[i]| ==> |EncodeEntries([], blocks[i][..n])| < blockSize
  {
    hide EncodeEntries, SplitBlocks;
    SplitSizes(es, blockSize);
    var blocks := BlocksOf(es, blockSize);
    assert forall i :: 0 <= i < |blocks| ==> FullOnlyAtEnd(blocks[i], blockSize);
  }

  // ---------- the writer object ----------

  class SsTableWriter {
    const params: Params
    const blockSize: nat
    const blockBuilder: BlockBuilder
    const bloomFilter: BloomFilterBuilder
    var file: ByteString
    var indexEntries: seq<IndexEntry>
    var offset: nat
    var header: Header

    ghost var blocks: seq<seq<Entry>>

    ghost function View(): Progress
      reads this, blockBuilder
    {
      Progress(blocks, blockBuilder.contents)
    }

    /** The part of the file written so far, and its index. */
    ghost predicate FileValid()
      reads this
    {
      && file == HeaderBytes(NEW_HEADER) + Join(AllBlockBytes(params.codec, blocks))
      && offset == |file|
      && indexEntries == IndexOf(params.codec, blocks)
      && NoEmptyBlock(blocks)
      && AllCompressible(params.codec, blocks)
    }

    ghost predicate Valid()
      reads this, blockBuilder, bloomFilter.bits
    {
      && params.numBits > 0
      && blockBuilder.codec == params.codec
      && bloomFilter.hash == params.hash && bloomFilter.numBits == params.numBits
      && blockBuilder.Valid()
      && FileValid()
      && header == HeaderOf(View().All(), |blocks|)
      && bloomFilter.State() == FilterOf(params, View().All())
    }

    /** Reserves the header at the front of the file. */
    constructor (params: Params, blockSize: nat)
      requires params.numBits > 0
      ensures Valid() && View() == Progress([], [])
      ensures this.params == params && this.blockSize == blockSize
      ensures fresh(blockBuilder) && fresh(bloomFilter.bits)
    {
      hide HeaderBytes;
      this.params, this.blockSize := params, blockSize;
      blockBuilder := new BlockBuilder(params.codec);
      bloomFilter := new BloomFilterBuilder(params.hash, params.numBits, params.numHashes);
      var placeholder := EncodeHeader(NEW_HEADER);
      file := placeholder;
      indexEntries := [];
      offset := HEADER_SIZE;
      header := NEW_HEADER;
      blocks := [];
      new;
      assert HeaderBytes(NEW_HEADER) + [] == HeaderBytes(NEW_HEADER);
      assert KeysOf([]) == [];
    }

    method Add(key: ByteString, value: ByteString, timestamp: U64) returns (r: Result<()>)
      requires Valid() && WordSized(Entry(key, value, timestamp))
      modifies this, blockBuilder, bloomFilter.bits
      ensures Valid()
      ensures var t := Added(old(View()), Entry(key, value, timestamp));
              if IsFullBlock(t.current, blockSize) && !Compressible(params.codec, t.current)
              then r == Err(InvalidFormat) && View() == t
              else r == Ok(()) && View() == AddProgress(old(View()), blockSize, Entry(key, value, timestamp))
    {
      hide HeaderBytes, EncodeEntries, Join, IndexOf, AllBlockBytes, AddKey, FilterOf, Compressible, Flatten,
        MinTimestamp, MaxTimestamp;
      ghost var e := Entry(key, value, timestamp);
      ghost var before := View().All();
      bloomFilter.Add(key);
      if timestamp < header.minTimestamp {
        header := header.(minTimestamp := timestamp);
      }
      if timestamp > header.maxTimestamp {
        header := header.(maxTimestamp := timestamp);
      }
      Regroup(Flatten(blocks), blockBuilder.contents, [e]);
      EntryRecorded(params, before, e);
      blockBuilder.Add(key, value, timestamp);
      assert View().All() == before + [e];
      assert Valid();
      if blockBuilder.Size() >= blockSize {
        r := FlushBlock();
      } else {
        r := Ok(());
      }
    }

    method FlushBlock() returns (r: Result<()>)
      requires Valid()
      modifies this, blockBuilder
      ensures Valid()
      ensures if old(View()).current != [] && !Compressible(params.codec, old(View()).current)
              then r == Err(InvalidFormat) && View() == old(View())
              else r == Ok(()) && View() == FlushProgress(old(View()))
    {
      hide HeaderBytes, EncodeEntries, Join, IndexOf, AllBlockBytes, Flatten, FilterOf, NoEmptyBlock, AllCompressible;
      if blockBuilder.IsEmpty() {
        return Ok(());
      }
      ghost var block := blockBuilder.contents;
      var firstKey := blockBuilder.firstKey.value;
      var compressed :- blockBuilder.Finish();
      OneMoreBlock(params.codec, blocks, block);
      file := file + compressed;
      indexEntries := indexEntries + [IndexEntry(firstKey, offset % WORD, |compressed| % 0x1_0000_0000)];
      offset := offset + |compressed|;
      header := header.(numBlocks := (header.numBlocks + 1) % 0x1_0000_0000);
      blockBuilder.Reset();
      blocks := blocks + [block];
      r := Ok(());
    }

    /** Writes filter, index and footer, then the real header over the reserved one. */
    method Finish() returns (r: Result<ByteString>)
      requires Valid()
      modifies this, blockBuilder
      ensures var done := FlushProgress(old(View())).blocks;
              if AllCompressible(params.codec, done)
              then r == Ok(TableFile(params, done)) && file == TableFile(params, done)
              else r == Err(InvalidFormat) && Valid() && View() == old(View())
    {
      hide HeaderBytes, FooterBytes, EncodeEntries, Join, IndexOf, AllBlockBytes, Flatten, FilterOf, EncodeFilter,
        IndexBytes, Compressible;
      DoneCompressible(params.codec, View());
      var flushed :- FlushBlock();
      FlushedAll(View());
      ghost var data := Join(AllBlockBytes(params.codec, blocks));
      var bloomOffset := offset;
      var bloomData := bloomFilter.Finish();
      file := file + bloomData;
      offset := offset + |bloomData|;
      var indexOffset := offset;
      var indexData := EncodeIndex(indexEntries);
      file := file + indexData;
      offset := offset + |indexData|;
      var footer := Footer(indexOffset % WORD, bloomOffset % WORD, |indexData| % 0x1_0000_0000,
                           |bloomData| % 0x1_0000_0000, 0);
      var footerBytes := EncodeFooter(footer);
      file := file + footerBytes;
      var headerBytes := EncodeHeader(header);
      OverwriteFront(HeaderBytes(NEW_HEADER), headerBytes, data, bloomData, indexData, footerBytes);
      file := headerBytes + file[|headerBytes|..];
      r := Ok(file);
    }
  }

  /** What one more block adds to the file, the index and the entries. */
  lemma OneMoreBlock(codec: Codec, blocks: seq<seq<Entry>>, block: seq<Entry>)
    requires NoEmptyBlock(blocks) && AllCompressible(codec, blocks) && block != [] && Compressible(codec, block)
    ensures var more, compressed := blocks + [block], BlockBytes(codec, block);
            var written := HeaderBytes(NEW_HEADER) + Join(AllBlockBytes(codec, blocks));
            && written + compressed == HeaderBytes(NEW_HEADER) + Join(AllBlockBytes(codec, more))
            && IndexOf(codec, more) ==
               IndexOf(codec, blocks) + [IndexEntry(FirstKey(block), |written| % WORD, |compressed| % 0x1_0000_0000)]
            && Flatten(more) + [] == Flatten(blocks) + block
            && NoEmptyBlock(more) && AllCompressible(codec, more)
  {
    hide HeaderBytes, BlockBytes, Join, Compressible, AllBlockBytes, IndexOf, Flatten;
    IndexOfAppend(codec, blocks, block);
    JoinAppend(AllBlockBytes(codec, blocks), BlockBytes(codec, block));
    FlattenAppend(blocks, block);
    Regroup(HeaderBytes(NEW_HEADER), Join(AllBlockBytes(codec, blocks)), BlockBytes(codec, block));
  }

  lemma DoneCompressible(codec: Codec, s: Progress)
    requires AllCompressible(codec, s.blocks)
    ensures AllCompressible(codec, FlushProgress(s).blocks) <==> s.current == [] || Compressible(codec, s.current)
  {
    hide Compressible;
    var done := FlushProgress(s).blocks;
    assert s.current != [] ==> done[|done| - 1] == s.current;
  }

  /** After a flush the current block is empty. */
  lemma FlushedAll(s: Progress)
    ensures s.current == [] ==> s.All() == Flatten(s.blocks)
  {}

  lemma OverwriteFront(h: ByteString, h': ByteString, a: ByteString, b: ByteString, c: ByteString, d: ByteString)
    requires |h| == |h'|
    ensures h' + (h + a + b + c + d)[|h'|..] == h' + a + b + c + d
  {}

  /** Recording one more entry updates the filter and the timestamp range as the writer does. */
  lemma EntryRecorded(p: Params, es: seq<Entry>, e: Entry)
    requires p.numBits > 0
    ensures FilterOf(p, es + [e]) == AddKey(p.hash, FilterOf(p, es), e.key)
    ensures var m := MinTimestamp(es); MinTimestamp(es + [e]) == if e.timestamp < m then e.timestamp else m
    ensures var m := MaxTimestamp(es); MaxTimestamp(es + [e]) == if e.timestamp > m then e.timestamp else m
  {
    hide AddKey;
    assert (es + [e])[..|es|] == es;
    assert KeysOf(es + [e])[..|es|] == KeysOf(es);
  }

  /** Writing a list of entries as a memtable flush does: the file, or a compression failure. */
  method WriteTable(params: Params, blockSize: nat, es: seq<Entry>) returns (r: Result<ByteString>)
    requires params.numBits > 0 && AllWordSized(es)
    ensures var blocks := BlocksOf(es, blockSize);
            r == if AllCompressible(params.codec, blocks) then Ok(TableFile(params, blocks)) else Err(InvalidFormat)
  {
    hide TableFile, AddProgress, FlushProgress, IsFullBlock, Compressible, BlocksOf, SsTableWriter.FileValid;
    var writer := new SsTableWriter(params, blockSize);
    assert es[..0] == [];
    for i := 0 to |es|
      invariant writer.Valid() && writer.params == params && writer.blockSize == blockSize
      invariant fresh(writer) && fresh(writer.blockBuilder) && fresh(writer.bloomFilter.bits)
      invariant writer.View() == SplitBlocks(es[..i], blockSize)
    {
      assert es[..i + 1][..i] == es[..i];
      ghost var before := writer.View();
      var added := writer.Add(es[i].key, es[i].value, es[i].timestamp);
      if added.Err? {
        FailedBlock(params.codec, es, i, blockSize);
        return Err(InvalidFormat);
      }
    }
    assert es[..|es|] == es;
    BlocksAreFinished(es, blockSize);
    r := writer.Finish();
  }

  lemma BlocksAreFinished(es: seq<Entry>, blockSize: nat)
    ensures BlocksOf(es, blockSize) == FlushProgress(SplitBlocks(es, blockSize)).blocks
  {}

  /** Blocks once closed stay. */
  lemma {:induction false} BlocksGrow(es: seq<Entry>, i: nat, blockSize: nat)
    requires i <= |es|
    ensures SplitBlocks(es[..i], blockSize).blocks <= BlocksOf(es, blockSize)
  {
    hide EncodeEntries;
    if i < |es| {
      BlocksGrow(es[..|es| - 1], i, blockSize);
      assert es[..|es| - 1][..i] == es[..i];
      PrefixGrows(es, i, blockSize);
    } else {
      assert es[..i] == es;
    }
  }

  lemma {:induction false} PrefixGrows(es: seq<Entry>, i: nat, blockSize: nat)
    requires i <= |es|
    ensures SplitBlocks(es[..i], blockSize).blocks <= SplitBlocks(es, blockSize).blocks
  {
    hide EncodeEntries;
    if i < |es| {
      PrefixGrows(es[..|es| - 1], i, blockSize);
      assert es[..|es| - 1][..i] == es[..i];
    } else {
      assert es[..i] == es;
    }
  }

  /** A full block that does not compress is one of the file's blocks. */
  lemma FailedBlock(codec: Codec, es: seq<Entry>, i: nat, blockSize: nat)
    requires i < |es|
    requires var t := Added(SplitBlocks(es[..i], blockSize), es[i]);
             IsFullBlock(t.current, blockSize) && !Compressible(codec, t.current)
    ensures !AllCompressible(codec, BlocksOf(es, blockSize))
  {
    hide EncodeEntries, Compressible, IsFullBlock;
    assert es[..i + 1][..i] == es[..i];
    BlocksGrow(es, i + 1, blockSize);
    var closed := SplitBlocks(es[..i + 1], blockSize).blocks;
    assert closed[|closed| - 1] == BlocksOf(es, blockSize)[|closed| - 1];
  }

  // ---------- reading back what was written ----------

  /** The bytes at a block's place in the file are those written for it. */
  lemma StoredBlock(p: Params, blocks: seq<seq<Entry>>, r: SsTableReader, i: nat)
    requires i < |blocks| && |r.file| < WORD && |BlockBytes(p.codec, blocks[i])| < 0x1_0000_0000
    requires r.index == IndexOf(p.codec, blocks)
    requires var data := Join(AllBlockBytes(p.codec, blocks));
             HEADER_SIZE + |data| <= |r.file| && r.file[HEADER_SIZE..HEADER_SIZE + |data|] == data
    ensures ReadAt(r.file, r.index[i].offset, r.index[i].size) == Ok(BlockBytes(p.codec, blocks[i]))
  {
    hide Join, FirstKey, IndexBytes, IndexOf, BlockBytes;
    var parts := AllBlockBytes(p.codec, blocks);
    JoinSlice(parts, i);
    OffsetExact(p.codec, blocks, i, |r.file|);
    SubSlice(r.file, HEADER_SIZE, Join(parts), |Join(parts[..i])|, |parts[i]|);
  }

  /** A block read from its place in the file is the block written. */
  lemma BlockReadsBack(p: Params, blocks: seq<seq<Entry>>, r: SsTableReader, i: nat)
    requires Inverts(p.codec) && i < |blocks| && Sorted(blocks[i]) && AllWordSized(blocks[i])
    requires |r.file| < WORD && |BlockBytes(p.codec, blocks[i])| < 0x1_0000_0000 && Compressible(p.codec, blocks[i])
    requires r.codec == p.codec && r.index == IndexOf(p.codec, blocks)
    requires var data := Join(AllBlockBytes(p.codec, blocks));
             HEADER_SIZE + |data| <= |r.file| && r.file[HEADER_SIZE..HEADER_SIZE + |data|] == data
    ensures r.ReadBlock(i) == Ok(blocks[i])
  {
    hide Join, EncodeEntries, DecodeEntries, IndexOf, AllWordSized, ReadAt, AllBlockBytes;
    StoredBlock(p, blocks, r, i);
    BlockRoundTrip(blocks[i]);
  }

  lemma SortedBlockOf(blocks: seq<seq<Entry>>, i: nat)
    requires SortedBlocks(blocks) && i < |blocks|
    ensures Sorted(blocks[i])
  {}

  lemma OffsetExact(codec: Codec, blocks: seq<seq<Entry>>, i: nat, bound: nat)
    requires i < |blocks| && bound < WORD
    requires |BlockBytes(codec, blocks[i])| < 0x1_0000_0000
    requires HEADER_SIZE + |Join(AllBlockBytes(codec, blocks)[..i])| <= bound
    ensures var e := IndexOf(codec, blocks)[i];
            && e.offset == HEADER_SIZE + |Join(AllBlockBytes(codec, blocks)[..i])|
            && e.size == |BlockBytes(codec, blocks[i])| == |AllBlockBytes(codec, blocks)[i]|
            && e.firstKey == FirstKey(blocks[i])
  {
    hide Join, BlockBytes;
  }

  lemma SubSlice(file: ByteString, start: nat, data: ByteString, from: nat, len: nat)
    requires start + |data| <= |file| && file[start..start + |data|] == data
    requires from + len <= |data|
    ensures file[start + from..start + from + len] == data[from..from + len]
  {
    var outer, inner := file[start + from..start + from + len], data[from..from + len];
    forall k | 0 <= k < len ensures outer[k] == inner[k] {
      assert file[start + from + k] == file[start..start + |data|][from + k];
    }
  }

  /** Opening the file loads exactly the index, filter and header that were written. */
  lemma WrittenTableLoads(p: Params, blocks: seq<seq<Entry>>)
    requires Fits(p, blocks)
    ensures Open(p.codec, p.hash, TableFile(p, blocks)) ==
            Ok(SsTableReader(p.codec, p.hash, TableFile(p, blocks), IndexOf(p.codec, blocks),
                             FilterOf(p, Flatten(blocks)), HeaderOf(Flatten(blocks), |blocks|)))
    ensures var data := Join(AllBlockBytes(p.codec, blocks));
            var file := TableFile(p, blocks);
            HEADER_SIZE + |data| <= |file| && file[HEADER_SIZE..HEADER_SIZE + |data|] == data
  {
    hide Join, AllBlockBytes, EncodeFilter, DecodeFilter, IndexBytes, IndexOf, DecodeIndex, FilterOf, Flatten,
      ReadHeader, ReadFooter, ReadIndex, ReadBloomFilter, Assembled, FooterOf, Contains;
    var es := Flatten(blocks);
    var header, data := HeaderOf(es, |blocks|), Join(AllBlockBytes(p.codec, blocks));
    FilterStored(p, es);
    AssembledParts(header, data, EncodeFilter(FilterOf(p, es)), IndexBytes(IndexOf(p.codec, blocks)));
    IndexStored(p.codec, blocks);
  }

  /** Where the parts of the file are: header, blocks, filter, index, and a footer that says so. */
  lemma FileLayout(p: Params, blocks: seq<seq<Entry>>)
    requires Fits(p, blocks)
    ensures var file, data := TableFile(p, blocks), Join(AllBlockBytes(p.codec, blocks));
            var bloom, index := EncodeFilter(FilterOf(p, Flatten(blocks))), IndexBytes(IndexOf(p.codec, blocks));
            var bloomAt, indexAt := 64 + |data|, 64 + |data| + |bloom|;
            && |file| == indexAt + |index| + 64
            && file[64..bloomAt] == data && file[bloomAt..indexAt] == bloom
            && file[indexAt..indexAt + |index|] == index
            && ReadFooter(file) == Ok(Footer(indexAt, bloomAt, |index|, |bloom|, 0))
            && ReadHeader(file) == Ok(HeaderOf(Flatten(blocks), |blocks|))
  {
    hide Join, AllBlockBytes, EncodeFilter, DecodeFilter, IndexBytes, IndexOf, DecodeIndex, FilterOf, Flatten,
      ReadHeader, ReadFooter, ReadIndex, ReadBloomFilter, HeaderBytes, FooterBytes, Contains;
    var es := Flatten(blocks);
    var header, data := HeaderOf(es, |blocks|), Join(AllBlockBytes(p.codec, blocks));
    var bloom, index := EncodeFilter(FilterOf(p, es)), IndexBytes(IndexOf(p.codec, blocks));
    FilterStored(p, es);
    AssembledParts(header, data, bloom, index);
    FooterExact(|data|, |bloom|, |index|);
    FiveParts(HeaderBytes(header), data, bloom, index, FooterBytes(FooterOf(|data|, |bloom|, |index|)));
  }

  lemma IndexStored(codec: Codec, blocks: seq<seq<Entry>>)
    requires forall i :: 0 <= i < |blocks| ==> |FirstKey(blocks[i])| <= 0xFFFF
    ensures DecodeIndex(IndexBytes(IndexOf(codec, blocks))) == Ok(IndexOf(codec, blocks))
  {
    IndexRoundTrip(IndexOf(codec, blocks));
  }

  /** A file written for sorted blocks opens, and the reader serves those blocks. */
  lemma WrittenTableOpens(p: Params, blocks: seq<seq<Entry>>)
    requires Inverts(p.codec) && Fits(p, blocks)
    requires Sorted(Flatten(blocks)) && NoEmptyBlock(blocks) && AllCompressible(p.codec, blocks)
    ensures var table := Open(p.codec, p.hash, TableFile(p, blocks));
            && table.Ok? && Serves(table.value, blocks)
            && table.value.header == Header(0x53535442, 1, |blocks| % 0x1_0000_0000, MinTimestamp(Flatten(blocks)),
                                            MaxTimestamp(Flatten(blocks)))
  {
    assert 1 <= p.numBits < 0x1_0000_0000;
    hide Open, TableFile, Join, FilterOf, AllBlockBytes, Flatten, Inverts, Fits, Serves, IndexOf,
      AllCompressible;
    WrittenTableLoads(p, blocks);
    WrittenBlocks(p, blocks, Open(p.codec, p.hash, TableFile(p, blocks)).value);
    WrittenIndex(p, blocks);
    FilterStored(p, Flatten(blocks));
    ServesAll(Open(p.codec, p.hash, TableFile(p, blocks)).value, blocks);
  }

  /** Every block of the file reads back. */
  lemma WrittenBlocks(p: Params, blocks: seq<seq<Entry>>, r: SsTableReader)
    requires Inverts(p.codec) && Fits(p, blocks) && Sorted(Flatten(blocks)) && AllCompressible(p.codec, blocks)
    requires r.codec == p.codec && r.file == TableFile(p, blocks) && r.index == IndexOf(p.codec, blocks)
    requires var data := Join(AllBlockBytes(p.codec, blocks));
             HEADER_SIZE + |data| <= |r.file| && r.file[HEADER_SIZE..HEADER_SIZE + |data|] == data
    ensures forall i :: 0 <= i < |blocks| ==> r.ReadBlock(i) == Ok(blocks[i])
  {
    hide TableFile, Join, AllBlockBytes, Flatten, Inverts, IndexOf, SsTableReader.ReadBlock, Compressible, SortedBlocks,
      Sorted;
    FlattenSorted(blocks);
    forall i | 0 <= i < |blocks| ensures r.ReadBlock(i) == Ok(blocks[i]) {
      BlockWordSized(blocks, i);
      SortedBlockOf(blocks, i);
      BlockReadsBack(p, blocks, r, i);
    }
  }

  lemma WrittenIndex(p: Params, blocks: seq<seq<Entry>>)
    requires NoEmptyBlock(blocks)
    ensures forall i :: 0 <= i < |blocks| ==> IndexOf(p.codec, blocks)[i].firstKey == blocks[i][0].key
  {
    hide Join, AllBlockBytes;
  }

  lemma ServesAll(r: SsTableReader, blocks: seq<seq<Entry>>)
    requires |r.index| == |blocks| && NoEmptyBlock(blocks) && r.bloomFilter.numBits > 0
    requires forall i :: 0 <= i < |blocks| ==> r.index[i].firstKey == blocks[i][0].key
    requires forall i :: 0 <= i < |blocks| ==> r.ReadBlock(i) == Ok(blocks[i])
    requires forall i :: 0 <= i < |Flatten(blocks)| ==> Contains(r.hash, r.bloomFilter, Flatten(blocks)[i].key)
    ensures Serves(r, blocks)
  {
    hide SsTableReader.ReadBlock, Contains, Flatten;
  }

  lemma BlockWordSized(blocks: seq<seq<Entry>>, i: nat)
    requires i < |blocks| && AllWordSized(Flatten(blocks))
    ensures AllWordSized(blocks[i])
  {
    forall b | 0 <= b < |blocks[i]| ensures WordSized(blocks[i][b]) {
      var at := BlockInFlatten(blocks, i, b);
    }
  }

  /** The stored filter reads back, is not empty, and admits every key written. */
  lemma FilterStored(p: Params, es: seq<Entry>)
    requires 1 <= p.numBits < 0x1_0000_0000
    ensures var stored := EncodeFilter(FilterOf(p, es));
            && 0 < |stored| < 0x1_0000_0000 && DecodeFilter(stored) == Ok(FilterOf(p, es))
    ensures FilterOf(p, es).numBits > 0
    ensures forall i :: 0 <= i < |es| ==> Contains(p.hash, FilterOf(p, es), es[i].key)
    ensures HeaderOf(es, 0).magic == MAGIC_NUMBER
  {
    FilterRoundTrip(FilterOf(p, es));
    forall i | 0 <= i < |es| ensures Contains(p.hash, FilterOf(p, es), es[i].key) {
      NeverLosesAKey(p.hash, p.numBits, p.numHashes, KeysOf(es), i);
    }
  }

  /** What a flushed and reopened table must answer: lookup and inclusive range of the entries. */
  ghost predicate Answers(r: SsTableReader, es: seq<Entry>) {
    && (forall key :: r.Get(key) == Ok(Lookup(es, key)))
    && forall start, end :: r.ScanFrom(r.StartBlock(start), start, end) == Ok(Range(es, start, end, true))
  }

  /** For any strictly sorted list within the stored widths and any block size: the written file
      opens, every lookup is list lookup, and every scan is the inclusive range. */
  lemma TableAnswers(p: Params, es: seq<Entry>, blockSize: nat)
    requires Inverts(p.codec) && Sorted(es)
    requires var blocks := BlocksOf(es, blockSize);
             Fits(p, blocks) && AllCompressible(p.codec, blocks)
    ensures var table := Open(p.codec, p.hash, TableFile(p, BlocksOf(es, blockSize)));
            table.Ok? && Answers(table.value, es)
  {
    hide Open, TableFile, Compressible, Serves, SsTableReader.Get, SsTableReader.ScanFrom, SsTableReader.StartBlock,
      Lookup, Range, BlocksOf;
    var blocks := BlocksOf(es, blockSize);
    BlocksOfCorrect(es, blockSize);
    WrittenTableOpens(p, blocks);
    var r := Open(p.codec, p.hash, TableFile(p, blocks)).value;
    forall key ensures r.Get(key) == Ok(Lookup(es, key)) {
      GetIsLookup(r, blocks, key);
    }
    forall start, end ensures r.ScanFrom(r.StartBlock(start), start, end) == Ok(Range(es, start, end, true)) {
      ScanIsRange(r, blocks, start, end);
    }
  }
}
