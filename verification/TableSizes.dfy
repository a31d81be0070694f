/** How large table files can get (src/sstable/writer.rs, src/sstable/format.rs): a bounded number of
    accepted entries stays within every width that the format stores. */
module TableSizes {
  import opened Bytes
  import opened Entries
  import opened Records
  import opened Varints
  import opened Blocks
  import opened Blooms
  import opened Formats
  import opened TableLayout
  import opened SstWriter

  /** Every block compresses, to at most twice its size and 64 bytes more. */
  ghost predicate BoundedCodec(codec: Codec) {
    forall b :: codec.compress(b).Some? && |codec.compress(b).value| <= 2 * |b| + 64
  }

  /** More than an accepted entry takes in a block or in the index. */
  const ENTRY_BOUND: nat := 0x1_0100

  /** With this many entries no block, index or file outgrows its stored width. */
  const MAX_ENTRIES: nat := 30_000

  ghost predicate AllEntriesAccepted(es: seq<Entry>) {
    forall i :: 0 <= i < |es| ==> Accepted(es[i])
  }

  lemma {:induction false} EncodedBound(prev: ByteString, es: seq<Entry>)
    requires AllEntriesAccepted(es)
    ensures |EncodeEntries(prev, es)| <= ENTRY_BOUND * |es|
    decreases es
  {
    if es != [] {
      EntryBound(prev, es[0]);
      hide EncodeEntry, Accepted;
      EncodedBound(es[0].key, es[1..]);
    }
  }

  lemma EntryBound(prev: ByteString, e: Entry)
    requires Accepted(e)
    ensures |EncodeEntry(prev, e)| <= ENTRY_BOUND
  {
    hide VarintBytes, CommonPrefixLen, LittleEndian;
    var shared := CommonPrefixLen(prev, e.key);
    VarintLength(shared);
    VarintLength(|e.key| - shared);
    VarintLength(|e.value|);
  }

  lemma CompressedBound(codec: Codec, block: seq<Entry>)
    requires BoundedCodec(codec) && AllEntriesAccepted(block)
    ensures Compressible(codec, block) && |BlockBytes(codec, block)| <= 2 * ENTRY_BOUND * |block| + 64
  {
    hide EncodeEntries, Accepted;
    EncodedBound([], block);
  }

  lemma {:induction false} DataBound(codec: Codec, blocks: seq<seq<Entry>>)
    requires BoundedCodec(codec) && AllEntriesAccepted(Flatten(blocks))
    ensures AllCompressible(codec, blocks)
    ensures forall i :: 0 <= i < |blocks| ==> |BlockBytes(codec, blocks[i])| <= 2 * ENTRY_BOUND * |Flatten(blocks)| + 64
    ensures |Join(AllBlockBytes(codec, blocks))| <= 2 * ENTRY_BOUND * |Flatten(blocks)| + 64 * |blocks|
  {
    hide Flatten, AllEntriesAccepted, BlockBytes, BoundedCodec, Compressible;
    if blocks != [] {
      var n := |blocks| - 1;
      var front, last := blocks[..n], blocks[n];
      LastBlock(blocks);
      DataBound(codec, front);
      CompressedBound(codec, last);
      assert AllBlockBytes(codec, blocks)[..n] == AllBlockBytes(codec, front);
      assert forall i :: 0 <= i < n ==> blocks[i] == front[i];
    }
  }

  lemma LastBlock(blocks: seq<seq<Entry>>)
    requires blocks != [] && AllEntriesAccepted(Flatten(blocks))
    ensures var front, last := blocks[..|blocks| - 1], blocks[|blocks| - 1];
            && AllEntriesAccepted(Flatten(front)) && AllEntriesAccepted(last)
            && |Flatten(blocks)| == |Flatten(front)| + |last|
  {
    hide Flatten, Accepted;
    var front, last := blocks[..|blocks| - 1], blocks[|blocks| - 1];
    assert blocks == front + [last];
    FlattenAppend(front, last);
    assert forall i :: 0 <= i < |Flatten(front)| ==> Flatten(front)[i] == Flatten(blocks)[i];
    assert forall i :: 0 <= i < |last| ==> last[i] == Flatten(blocks)[|Flatten(front)| + i];
  }

  lemma {:induction false} IndexBound(index: seq<IndexEntry>)
    requires forall i :: 0 <= i < |index| ==> |index[i].firstKey| <= 0xFFFF
    ensures |IndexBytes(index)| <= ENTRY_BOUND * |index|
  {
    if index != [] {
      IndexBound(index[1..]);
    }
  }

  /** There are no more blocks than entries, and each starts with an accepted key. */
  lemma {:induction false} FirstKeysBound(blocks: seq<seq<Entry>>)
    requires NoEmptyBlock(blocks) && AllEntriesAccepted(Flatten(blocks))
    ensures |blocks| <= |Flatten(blocks)|
    ensures forall i :: 0 <= i < |blocks| ==> |FirstKey(blocks[i])| <= 0xFFFF
  {
    if blocks != [] {
      assert Flatten(blocks)[0] == blocks[0][0];
      assert forall i :: 0 <= i < |Flatten(blocks[1..])| ==>
          Flatten(blocks[1..])[i] == Flatten(blocks)[|blocks[0]| + i];
      FirstKeysBound(blocks[1..]);
      assert forall i :: 1 <= i < |blocks| ==> blocks[i] == blocks[1..][i - 1];
    }
  }

  /** A bounded number of accepted entries fits. */
  lemma BoundedFits(p: Params, es: seq<Entry>, blockSize: nat)
    requires 1 <= p.numBits < 0x1_0000_0000 && BoundedCodec(p.codec)
    requires AllEntriesAccepted(es) && |es| <= MAX_ENTRIES
    ensures Fits(p, BlocksOf(es, blockSize)) && AllCompressible(p.codec, BlocksOf(es, blockSize))
  {
    var blocks := BlocksOf(es, blockSize);
    BlocksOfCorrect(es, blockSize);
    hide BlocksOf, BlockBytes, Join, Flatten, IndexBytes, IndexOf, BoundedCodec, Accepted, AllCompressible,
      AllBlockBytes, FirstKey, TableFile, NoEmptyBlock;
    DataBound(p.codec, blocks);
    FirstKeysBound(blocks);
    IndexKeys(p.codec, blocks);
    IndexBound(IndexOf(p.codec, blocks));
    AcceptedWordSized(es);
    FileLength(p, blocks);
  }

  lemma FileLength(p: Params, blocks: seq<seq<Entry>>)
    requires p.numBits > 0
    ensures |TableFile(p, blocks)| ==
            136 + |Join(AllBlockBytes(p.codec, blocks))| + BytesFor(p.numBits) + |IndexBytes(IndexOf(p.codec, blocks))|
  {
    hide Join, AllBlockBytes, IndexBytes, IndexOf, HeaderBytes, FooterBytes, Flatten, AddKeys, LittleEndian;
  }

  lemma IndexKeys(codec: Codec, blocks: seq<seq<Entry>>)
    ensures forall i :: 0 <= i < |blocks| ==> IndexOf(codec, blocks)[i].firstKey == FirstKey(blocks[i])
  {
    hide Join, AllBlockBytes;
  }

  lemma AcceptedWordSized(es: seq<Entry>)
    requires AllEntriesAccepted(es)
    ensures AllWordSized(es)
  {}
}
