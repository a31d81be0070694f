/** The bytes of an SSTable file: blocks, Bloom filter, index, header and footer. */
module TableLayout {
  import opened Bytes
  import opened Entries
  import opened Varints
  import opened Blocks
  import opened Blooms
  import opened Formats

  /** Compression and hashing, and the size of the Bloom filter the writer allocates. */
  datatype Params = Params(codec: Codec, hash: HashFn, numBits: nat, numHashes: U32)

  // ---------- entries of the blocks ----------

  function Flatten(blocks: seq<seq<Entry>>): seq<Entry> {
    if blocks == [] then [] else blocks[0] + Flatten(blocks[1..])
  }

  lemma {:induction false} FlattenConcat(a: seq<seq<Entry>>, b: seq<seq<Entry>>)
    ensures Flatten(a + b) == Flatten(a) + Flatten(b)
  {
    if a == [] {
      assert a + b == b;
    } else {
      assert (a + b)[1..] == a[1..] + b;
      FlattenConcat(a[1..], b);
      Regroup(a[0], Flatten(a[1..]), Flatten(b));
    }
  }

  lemma FlattenAppend(blocks: seq<seq<Entry>>, block: seq<Entry>)
    ensures Flatten(blocks + [block]) == Flatten(blocks) + block
  {
    FlattenConcat(blocks, [block]);
    assert [block][1..] == [] && block + [] == block;
  }

  function KeysOf(es: seq<Entry>): (keys: seq<ByteString>)
    ensures |keys| == |es| && forall i :: 0 <= i < |es| ==> keys[i] == es[i].key
  {
    seq(|es|, i requires 0 <= i < |es| => es[i].key)
  }

  ghost predicate NoEmptyBlock(blocks: seq<seq<Entry>>) {
    forall i :: 0 <= i < |blocks| ==> blocks[i] != []
  }

  // ---------- block data and index ----------

  function Join(parts: seq<ByteString>): ByteString {
    if parts == [] then [] else Join(parts[..|parts| - 1]) + parts[|parts| - 1]
  }

  lemma JoinAppend(parts: seq<ByteString>, part: ByteString)
    ensures Join(parts + [part]) == Join(parts) + part
  {
    assert (parts + [part])[..|parts|] == parts;
  }

  /** A part is found at the offset that the parts before it take up. */
  lemma {:induction false} JoinSlice(parts: seq<ByteString>, i: nat)
    requires i < |parts|
    ensures var from := |Join(parts[..i])|;
            from + |parts[i]| <= |Join(parts)| && Join(parts)[from..from + |parts[i]|] == parts[i]
  {
    var n := |parts| - 1;
    if i < n {
      JoinSlice(parts[..n], i);
      assert parts[..n][..i] == parts[..i];
    }
  }

  predicate Compressible(codec: Codec, block: seq<Entry>) {
    codec.compress(EncodeEntries([], block)).Some?
  }

  /** What is written for a block (nothing, if it does not compress). */
  function BlockBytes(codec: Codec, block: seq<Entry>): ByteString {
    match codec.compress(EncodeEntries([], block)) case Some(c) => c case None => []
  }

  function AllBlockBytes(codec: Codec, blocks: seq<seq<Entry>>): (parts: seq<ByteString>)
    ensures |parts| == |blocks|
  {
    seq(|blocks|, i requires 0 <= i < |blocks| => BlockBytes(codec, blocks[i]))
  }

  function FirstKey(block: seq<Entry>): ByteString {
    if block == [] then [] else block[0].key
  }

  /** The index entry of a block; the casts to the stored widths truncate. */
  function IndexEntryOf(codec: Codec, blocks: seq<seq<Entry>>, i: nat): IndexEntry
    requires i < |blocks|
  {
    var parts := AllBlockBytes(codec, blocks);
    IndexEntry(FirstKey(blocks[i]), (HEADER_SIZE + |Join(parts[..i])|) % WORD, |parts[i]| % 0x1_0000_0000)
  }

  function IndexOf(codec: Codec, blocks: seq<seq<Entry>>): (index: seq<IndexEntry>)
    ensures |index| == |blocks|
  {
    seq(|blocks|, i requires 0 <= i < |blocks| => IndexEntryOf(codec, blocks, i))
  }

  lemma IndexOfAppend(codec: Codec, blocks: seq<seq<Entry>>, block: seq<Entry>)
    ensures AllBlockBytes(codec, blocks + [block]) == AllBlockBytes(codec, blocks) + [BlockBytes(codec, block)]
    ensures IndexOf(codec, blocks + [block]) ==
            IndexOf(codec, blocks) + [IndexEntry(FirstKey(block),
                                                 (HEADER_SIZE + |Join(AllBlockBytes(codec, blocks))|) % WORD,
                                                 |BlockBytes(codec, block)| % 0x1_0000_0000)]
  {
    hide BlockBytes, Join;
    var before, after := AllBlockBytes(codec, blocks), AllBlockBytes(codec, blocks + [block]);
    assert after == before + [BlockBytes(codec, block)];
    assert after[..|blocks|] == before;
    forall i | 0 <= i < |blocks| ensures IndexEntryOf(codec, blocks + [block], i) == IndexEntryOf(codec, blocks, i) {
      assert after[..i] == before[..i];
    }
  }

  // ---------- header and filter ----------

  function MinTimestamp(es: seq<Entry>): U64 {
    if es == [] then U64_MAX
    else
      var m := MinTimestamp(es[..|es| - 1]);
      var t := es[|es| - 1].timestamp;
      if t < m then t else m
  }

  function MaxTimestamp(es: seq<Entry>): U64 {
    if es == [] then 0
    else
      var m := MaxTimestamp(es[..|es| - 1]);
      var t := es[|es| - 1].timestamp;
      if t > m then t else m
  }

  /** The header's timestamps are bounds that entries attain. */
  lemma {:induction false} TimestampRange(es: seq<Entry>)
    ensures forall i :: 0 <= i < |es| ==> MinTimestamp(es) <= es[i].timestamp <= MaxTimestamp(es)
    ensures es != [] ==> exists i :: 0 <= i < |es| && es[i].timestamp == MinTimestamp(es)
    ensures es != [] ==> exists i :: 0 <= i < |es| && es[i].timestamp == MaxTimestamp(es)
  {
    if es != [] {
      var n := |es| - 1;
      var front := es[..n];
      TimestampRange(front);
      assert forall i :: 0 <= i < n ==> front[i] == es[i];
      if front != [] {
        var i :| 0 <= i < n && front[i].timestamp == MinTimestamp(front);
        var j :| 0 <= j < n && front[j].timestamp == MaxTimestamp(front);
        assert es[i].timestamp == MinTimestamp(es) || es[n].timestamp == MinTimestamp(es);
        assert es[j].timestamp == MaxTimestamp(es) || es[n].timestamp == MaxTimestamp(es);
      } else {
        assert es[n].timestamp == MinTimestamp(es) && es[n].timestamp == MaxTimestamp(es);
      }
    }
  }

  function HeaderOf(es: seq<Entry>, numBlocks: nat): Header {
    Header(MAGIC_NUMBER, VERSION, numBlocks % 0x1_0000_0000, MinTimestamp(es), MaxTimestamp(es))
  }

  function FilterOf(p: Params, es: seq<Entry>): Filter
    requires p.numBits > 0
  {
    AddKeys(p.hash, EmptyFilter(p.numBits, p.numHashes), KeysOf(es))
  }

  // ---------- the file ----------

  function FooterOf(dataSize: nat, bloomSize: nat, indexSize: nat): Footer {
    Footer((HEADER_SIZE + dataSize + bloomSize) % WORD, (HEADER_SIZE + dataSize) % WORD,
           indexSize % 0x1_0000_0000, bloomSize % 0x1_0000_0000, 0)
  }

  function Assembled(header: Header, data: ByteString, bloom: ByteString, index: ByteString): ByteString {
    HeaderBytes(header) + data + bloom + index + FooterBytes(FooterOf(|data|, |bloom|, |index|))
  }

  /** The complete file for the given blocks. */
  function TableFile(p: Params, blocks: seq<seq<Entry>>): ByteString
    requires p.numBits > 0
  {
    var es := Flatten(blocks);
    Assembled(HeaderOf(es, |blocks|), Join(AllBlockBytes(p.codec, blocks)), EncodeFilter(FilterOf(p, es)),
              IndexBytes(IndexOf(p.codec, blocks)))
  }

  /** Keys, blocks, index and file are within the widths the format stores. */
  ghost predicate Fits(p: Params, blocks: seq<seq<Entry>>) {
    && 1 <= p.numBits < 0x1_0000_0000
    && AllWordSized(Flatten(blocks))
    && (forall i :: 0 <= i < |blocks| ==> |FirstKey(blocks[i])| <= 0xFFFF)
    && (forall i :: 0 <= i < |blocks| ==> |BlockBytes(p.codec, blocks[i])| < 0x1_0000_0000)
    && |IndexBytes(IndexOf(p.codec, blocks))| < 0x1_0000_0000
    && |TableFile(p, blocks)| < WORD
  }
}
