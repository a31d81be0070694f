/** Fixed-layout parts of an SSTable file (src/sstable/format.rs): header, footer and index. */
module Formats {
  import opened Bytes
  import opened Results

  const MAGIC_NUMBER: U32 := 0x53535442
  const VERSION: U32 := 1
  const HEADER_SIZE: nat := 64
  const FOOTER_SIZE: nat := 64
  const U64_MAX: U64 := 0xFFFF_FFFF_FFFF_FFFF

  datatype Header = Header(magic: U32, version: U32, numBlocks: U32, minTimestamp: U64, maxTimestamp: U64)

  datatype Footer = Footer(indexOffset: U64, bloomOffset: U64, indexSize: U32, bloomSize: U32, checksum: U32)

  datatype IndexEntry = IndexEntry(firstKey: ByteString, offset: U64, size: U32)

  const NEW_HEADER: Header := Header(MAGIC_NUMBER, VERSION, 0, U64_MAX, 0)

  method PadTo(buf: ByteString, size: nat) returns (out: ByteString)
    requires |buf| <= size
    ensures out == buf + Zeros(size - |buf|)
  {
    out := buf;
    while |out| < size
      invariant |buf| <= |out| <= size && out == buf + Zeros(|out| - |buf|)
    {
      out := out + [0];
    }
  }

  // ---------- header ----------

  function HeaderBytes(h: Header): (bytes: ByteString)
    ensures |bytes| == HEADER_SIZE
  {
    LittleEndian(h.magic, 4) + LittleEndian(h.version, 4) + LittleEndian(h.numBlocks, 4)
    + LittleEndian(h.minTimestamp, 8) + LittleEndian(h.maxTimestamp, 8) + Zeros(HEADER_SIZE - 28)
  }

  method EncodeHeader(h: Header) returns (buf: ByteString)
    ensures buf == HeaderBytes(h)
  {
    hide LittleEndian;
    buf := LittleEndian(h.magic, 4);
    buf := buf + LittleEndian(h.version, 4);
    buf := buf + LittleEndian(h.numBlocks, 4);
    buf := buf + LittleEndian(h.minTimestamp, 8);
    buf := buf + LittleEndian(h.maxTimestamp, 8);
    buf := PadTo(buf, HEADER_SIZE);
  }

  function DecodeHeader(data: ByteString): Result<Header> {
    if |data| < HEADER_SIZE then Err(InvalidFormat)
    else if GetU32(data) != MAGIC_NUMBER then Err(InvalidFormat)
    else Ok(Header(GetU32(data), GetU32(data[4..]), GetU32(data[8..]), GetU64(data[12..]), GetU64(data[20..])))
  }

  /** Where the header's fields are. */
  lemma HeaderLayout(h: Header)
    ensures var bytes := HeaderBytes(h);
            && |bytes| == 64
            && LittleEndianValue(bytes[..4]) == h.magic && LittleEndianValue(bytes[4..8]) == h.version
            && LittleEndianValue(bytes[8..12]) == h.numBlocks
            && LittleEndianValue(bytes[12..20]) == h.minTimestamp
            && LittleEndianValue(bytes[20..28]) == h.maxTimestamp
            && forall i :: 28 <= i < 64 ==> bytes[i] == 0
  {
    hide LittleEndian, LittleEndianValue;
    var bytes := HeaderBytes(h);
    assert bytes[..4] == LittleEndian(h.magic, 4) && bytes[4..8] == LittleEndian(h.version, 4);
    assert bytes[8..12] == LittleEndian(h.numBlocks, 4);
    assert bytes[12..20] == LittleEndian(h.minTimestamp, 8) && bytes[20..28] == LittleEndian(h.maxTimestamp, 8);
    U32RoundTrip(h.magic);
    U32RoundTrip(h.version);
    U32RoundTrip(h.numBlocks);
    U64RoundTrip(h.minTimestamp);
    U64RoundTrip(h.maxTimestamp);
  }

  /** The stored header reads back as written, if it carries the magic number. */
  lemma HeaderRoundTrip(h: Header)
    ensures DecodeHeader(HeaderBytes(h)) == if h.magic == MAGIC_NUMBER then Ok(h) else Err(InvalidFormat)
  {
    hide LittleEndian, LittleEndianValue;
    var data := HeaderBytes(h);
    assert data[..4] == LittleEndian(h.magic, 4);
    assert data[4..][..4] == LittleEndian(h.version, 4);
    assert data[8..][..4] == LittleEndian(h.numBlocks, 4);
    assert data[12..][..8] == LittleEndian(h.minTimestamp, 8);
    assert data[20..][..8] == LittleEndian(h.maxTimestamp, 8);
    U32RoundTrip(h.magic);
    U32RoundTrip(h.version);
    U32RoundTrip(h.numBlocks);
    U64RoundTrip(h.minTimestamp);
    U64RoundTrip(h.maxTimestamp);
  }

  // ---------- footer ----------

  function FooterBytes(f: Footer): (bytes: ByteString)
    ensures |bytes| == FOOTER_SIZE
  {
    LittleEndian(f.indexOffset, 8) + LittleEndian(f.bloomOffset, 8) + LittleEndian(f.indexSize, 4)
    + LittleEndian(f.bloomSize, 4) + LittleEndian(f.checksum, 4) + Zeros(FOOTER_SIZE - 28)
  }

  method EncodeFooter(f: Footer) returns (buf: ByteString)
    ensures buf == FooterBytes(f)
  {
    hide LittleEndian;
    buf := LittleEndian(f.indexOffset, 8);
    buf := buf + LittleEndian(f.bloomOffset, 8);
    buf := buf + LittleEndian(f.indexSize, 4);
    buf := buf + LittleEndian(f.bloomSize, 4);
    buf := buf + LittleEndian(f.checksum, 4);
    buf := PadTo(buf, FOOTER_SIZE);
  }

  function DecodeFooter(data: ByteString): Result<Footer> {
    if |data| < FOOTER_SIZE then Err(InvalidFormat)
    else Ok(Footer(GetU64(data), GetU64(data[8..]), GetU32(data[16..]), GetU32(data[20..]), GetU32(data[24..])))
  }

  /** Where the footer's fields are. */
  lemma FooterLayout(f: Footer)
    ensures var bytes := FooterBytes(f);
            && |bytes| == 64
            && LittleEndianValue(bytes[..8]) == f.indexOffset && LittleEndianValue(bytes[8..16]) == f.bloomOffset
            && LittleEndianValue(bytes[16..20]) == f.indexSize && LittleEndianValue(bytes[20..24]) == f.bloomSize
            && LittleEndianValue(bytes[24..28]) == f.checksum
            && forall i :: 28 <= i < 64 ==> bytes[i] == 0
  {
    hide LittleEndian, LittleEndianValue;
    var bytes := FooterBytes(f);
    assert bytes[..8] == LittleEndian(f.indexOffset, 8) && bytes[8..16] == LittleEndian(f.bloomOffset, 8);
    assert bytes[16..20] == LittleEndian(f.indexSize, 4) && bytes[20..24] == LittleEndian(f.bloomSize, 4);
    assert bytes[24..28] == LittleEndian(f.checksum, 4);
    U64RoundTrip(f.indexOffset);
    U64RoundTrip(f.bloomOffset);
    U32RoundTrip(f.indexSize);
    U32RoundTrip(f.bloomSize);
    U32RoundTrip(f.checksum);
  }

  lemma FooterRoundTrip(f: Footer)
    ensures DecodeFooter(FooterBytes(f)) == Ok(f)
  {
    hide LittleEndian, LittleEndianValue;
    var data := FooterBytes(f);
    assert data[..8] == LittleEndian(f.indexOffset, 8);
    assert data[8..][..8] == LittleEndian(f.bloomOffset, 8);
    assert data[16..][..4] == LittleEndian(f.indexSize, 4);
    assert data[20..][..4] == LittleEndian(f.bloomSize, 4);
    assert data[24..][..4] == LittleEndian(f.checksum, 4);
    U64RoundTrip(f.indexOffset);
    U64RoundTrip(f.bloomOffset);
    U32RoundTrip(f.indexSize);
    U32RoundTrip(f.bloomSize);
    U32RoundTrip(f.checksum);
  }

  // ---------- index ----------

  /** The key length is cut to sixteen bits. */
  function IndexEntryBytes(e: IndexEntry): (bytes: ByteString)
    ensures |bytes| == |e.firstKey| + 14
  {
    LittleEndian(|e.firstKey|, 2) + e.firstKey + LittleEndian(e.offset, 8) + LittleEndian(e.size, 4)
  }

  /** Where the fields of an index entry are. */
  lemma IndexEntryLayout(e: IndexEntry)
    ensures var bytes, k := IndexEntryBytes(e), |e.firstKey|;
            && |bytes| == 14 + k
            && LittleEndianValue(bytes[..2]) == k % 0x1_0000 && bytes[2..2 + k] == e.firstKey
            && LittleEndianValue(bytes[2 + k..10 + k]) == e.offset && LittleEndianValue(bytes[10 + k..]) == e.size
  {
    hide LittleEndian, LittleEndianValue;
    var bytes, k := IndexEntryBytes(e), |e.firstKey|;
    assert bytes[..2] == LittleEndian(k, 2) && bytes[2..2 + k] == e.firstKey;
    assert bytes[2 + k..10 + k] == LittleEndian(e.offset, 8) && bytes[10 + k..] == LittleEndian(e.size, 4);
    LittleEndianTruncates(k, 2);
    Pow256Values();
    U64RoundTrip(e.offset);
    U32RoundTrip(e.size);
  }

  function DecodeIndexEntry(data: ByteString): (r: Result<(IndexEntry, ByteString)>)
    ensures r.Ok? ==> |r.value.1| < |data|
  {
    if |data| < 2 then Err(InvalidFormat)
    else
      var keyLen := GetU16(data);
      var d := data[2..];
      if |d| < keyLen + 12 then Err(InvalidFormat)
      else
        var t := d[keyLen..];
        Ok((IndexEntry(d[..keyLen], GetU64(t), GetU32(t[8..])), t[12..]))
  }

  /** An index entry reads back exactly when its key length fits sixteen bits. */
  lemma IndexEntryRoundTripIff(e: IndexEntry, rest: ByteString)
    ensures DecodeIndexEntry(IndexEntryBytes(e) + rest) == Ok((e, rest)) <==> |e.firstKey| <= 0xFFFF
  {
    hide LittleEndian, LittleEndianValue, IndexEntryBytes, DecodeIndexEntry;
    IndexKeyLength(e, rest);
    if |e.firstKey| <= 0xFFFF {
      IndexReads(e, rest);
    } else {
      WrongKeyLength(e, rest);
    }
  }

  /** Any bytes that decode are the encoding of what they decode to. */
  lemma IndexEntryDecodesIff(data: ByteString, e: IndexEntry, rest: ByteString)
    ensures DecodeIndexEntry(data) == Ok((e, rest)) <==>
            data == IndexEntryBytes(e) + rest && |e.firstKey| <= 0xFFFF
    ensures DecodeIndexEntry(data).Err? ==> DecodeIndexEntry(data).error == InvalidFormat
  {
    hide LittleEndian, LittleEndianValue;
    if DecodeIndexEntry(data) == Ok((e, rest)) {
      var k := |e.firstKey|;
      LittleEndianUnique(data[..2]);
      LittleEndianUnique(data[2..][k..][..8]);
      LittleEndianUnique(data[2..][k..][8..][..4]);
      assert data == data[..2] + data[2..][..k] + data[2..][k..][..8] + data[2..][k..][8..][..4] + rest;
    }
    IndexEntryRoundTripIff(e, rest);
  }

  /** The key length read is the length written modulo the width. */
  lemma IndexKeyLength(e: IndexEntry, rest: ByteString)
    ensures var data := IndexEntryBytes(e) + rest;
            |data| >= 2 && GetU16(data) == |e.firstKey| % 0x1_0000
  {
    IndexEntryParts(e, rest);
    LittleEndianTruncates(|e.firstKey|, 2);
    Pow256Values();
  }

  lemma IndexReads(e: IndexEntry, rest: ByteString)
    requires |e.firstKey| <= 0xFFFF && |IndexEntryBytes(e) + rest| >= 2
    requires GetU16(IndexEntryBytes(e) + rest) == |e.firstKey|
    ensures DecodeIndexEntry(IndexEntryBytes(e) + rest) == Ok((e, rest))
  {
    hide LittleEndian, GetU16, GetU32, GetU64, IndexEntryBytes;
    IndexEntryParts(e, rest);
    IndexTailReads(e, rest);
    TakeDrop(e.firstKey, LittleEndian(e.offset, 8) + (LittleEndian(e.size, 4) + rest));
  }

  lemma WrongKeyLength(e: IndexEntry, rest: ByteString)
    requires |IndexEntryBytes(e) + rest| >= 2 && GetU16(IndexEntryBytes(e) + rest) < |e.firstKey|
    ensures DecodeIndexEntry(IndexEntryBytes(e) + rest) != Ok((e, rest))
  {
    hide GetU16, GetU32, GetU64, IndexEntryBytes;
  }

  lemma IndexEntryParts(e: IndexEntry, rest: ByteString)
    ensures var data := IndexEntryBytes(e) + rest;
            && data[..2] == LittleEndian(|e.firstKey|, 2)
            && data[2..] == e.firstKey + (LittleEndian(e.offset, 8) + (LittleEndian(e.size, 4) + rest))
  {
    hide LittleEndian;
  }

  lemma IndexTailReads(e: IndexEntry, rest: ByteString)
    ensures var tail := LittleEndian(e.offset, 8) + (LittleEndian(e.size, 4) + rest);
            GetU64(tail) == e.offset && GetU32(tail[8..]) == e.size && tail[12..] == rest
  {
    hide LittleEndian, LittleEndianValue;
    var tail := LittleEndian(e.offset, 8) + (LittleEndian(e.size, 4) + rest);
    TakeDrop(LittleEndian(e.offset, 8), LittleEndian(e.size, 4) + rest);
    TakeDrop(LittleEndian(e.size, 4), rest);
    assert tail[12..] == tail[8..][4..];
    U64RoundTrip(e.offset);
    U32RoundTrip(e.size);
  }

  function IndexBytes(index: seq<IndexEntry>): ByteString {
    if index == [] then [] else IndexEntryBytes(index[0]) + IndexBytes(index[1..])
  }

  lemma {:induction false} IndexBytesAppend(index: seq<IndexEntry>, e: IndexEntry)
    ensures IndexBytes(index + [e]) == IndexBytes(index) + IndexEntryBytes(e)
  {
    if index == [] {
      assert index + [e] == [e] && [e][1..] == [];
    } else {
      assert (index + [e])[1..] == index[1..] + [e];
      IndexBytesAppend(index[1..], e);
      Regroup(IndexEntryBytes(index[0]), IndexBytes(index[1..]), IndexEntryBytes(e));
    }
  }

  method EncodeIndex(index: seq<IndexEntry>) returns (buf: ByteString)
    ensures buf == IndexBytes(index)
  {
    hide IndexEntryBytes;
    buf := [];
    for i := 0 to |index|
      invariant buf == IndexBytes(index[..i])
    {
      assert index[..i + 1] == index[..i] + [index[i]];
      IndexBytesAppend(index[..i], index[i]);
      buf := buf + IndexEntryBytes(index[i]);
    }
    assert index[..|index|] == index;
  }

  function DecodeIndex(data: ByteString): Result<seq<IndexEntry>>
    decreases |data|
  {
    if data == [] then Ok([])
    else
      var (e, rest) :- DecodeIndexEntry(data);
      var es :- DecodeIndex(rest);
      Ok([e] + es)
  }

  method ReadIndexEntries(buf: ByteString) returns (r: Result<seq<IndexEntry>>)
    ensures r == DecodeIndex(buf)
  {
    hide DecodeIndexEntry;
    var entries: seq<IndexEntry> := [];
    var cursor := buf;
    assert forall more: seq<IndexEntry> :: [] + more == more;
    while cursor != []
      invariant DecodeIndex(buf) == Prepend(entries, DecodeIndex(cursor))
      decreases |cursor|
    {
      var entry :- DecodeIndexEntry(cursor);
      assert forall more: seq<IndexEntry> :: entries + ([entry.0] + more) == (entries + [entry.0]) + more;
      entries, cursor := entries + [entry.0], entry.1;
    }
    assert entries + [] == entries;
    return Ok(entries);
  }

  lemma {:induction false} IndexRoundTrip(index: seq<IndexEntry>)
    requires forall i :: 0 <= i < |index| ==> |index[i].firstKey| <= 0xFFFF
    ensures DecodeIndex(IndexBytes(index)) == Ok(index)
  {
    if index != [] {
      hide DecodeIndexEntry, IndexEntryBytes;
      var first, others := index[0], index[1..];
      var rest := IndexBytes(others);
      assert index == [first] + others;
      assert forall i :: 0 <= i < |others| ==> others[i] == index[i + 1];
      IndexEntryRoundTripIff(first, rest);
      IndexRoundTrip(others);
      assert DecodeIndex(IndexEntryBytes(first) + rest) == Ok([first] + others);
    }
  }
}
