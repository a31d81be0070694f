/** Prefix-compressed data blocks: the builder (src/sstable/block.rs) and the decoder
    (src/sstable/reader.rs). */
module Blocks {
  import opened Bytes
  import opened Results
  import opened Entries
  import opened Varints

  /** Snappy: compression may fail, and decompression rejects what is not a compressed string. */
  datatype Codec = Codec(
    compress: ByteString -> Option<ByteString>,
    decompress: ByteString -> Option<ByteString>)

  ghost predicate Inverts(codec: Codec) {
    forall b, c :: codec.compress(b) == Some(c) ==> codec.decompress(c) == Some(b)
  }

  // ---------- shared prefixes ----------

  function CommonPrefixLen(a: ByteString, b: ByteString): (n: nat)
    ensures n <= |a| && n <= |b|
  {
    if a == [] || b == [] || a[0] != b[0] then 0 else 1 + CommonPrefixLen(a[1..], b[1..])
  }

  /** The length found is the longest agreeing prefix, and the only such length. */
  lemma {:induction false} CommonPrefixCorrect(a: ByteString, b: ByteString)
    ensures var n := CommonPrefixLen(a, b);
            a[..n] == b[..n] && (n < |a| && n < |b| ==> a[n] != b[n])
  {
    if a != [] && b != [] && a[0] == b[0] {
      CommonPrefixCorrect(a[1..], b[1..]);
      var n := CommonPrefixLen(a[1..], b[1..]);
      assert a[..n + 1] == [a[0]] + a[1..][..n];
      assert b[..n + 1] == [b[0]] + b[1..][..n];
    }
  }

  lemma {:induction false} CommonPrefixUnique(a: ByteString, b: ByteString, n: nat)
    requires n <= |a| && n <= |b| && a[..n] == b[..n]
    requires n < |a| && n < |b| ==> a[n] != b[n]
    ensures n == CommonPrefixLen(a, b)
  {
    if n > 0 {
      assert a[0] == a[..n][0] == b[..n][0] == b[0];
      assert a[1..][..n - 1] == a[..n][1..] && b[1..][..n - 1] == b[..n][1..];
      CommonPrefixUnique(a[1..], b[1..], n - 1);
    }
  }

  method ComputeCommonPrefixLen(a: ByteString, b: ByteString) returns (n: nat)
    ensures n == CommonPrefixLen(a, b)
  {
    var minLen := if |a| < |b| then |a| else |b|;
    n := 0;
    while n < minLen
      invariant n <= minLen && a[..n] == b[..n]
    {
      if a[n] != b[n] {
        CommonPrefixUnique(a, b, n);
        return;
      }
      n := n + 1;
    }
    CommonPrefixUnique(a, b, n);
  }

  // ---------- encoding ----------

  /** Shared length, unshared length, value length, unshared key bytes, value, timestamp. */
  function EncodeEntry(prev: ByteString, e: Entry): ByteString {
    var shared := CommonPrefixLen(prev, e.key);
    VarintBytes(shared) + VarintBytes(|e.key| - shared) + VarintBytes(|e.value|)
    + e.key[shared..] + e.value + LittleEndian(e.timestamp, 8)
  }

  /** The entries of a block, each compressed against the key before it. */
  function EncodeEntries(prev: ByteString, es: seq<Entry>): ByteString
    decreases es
  {
    if es == [] then [] else EncodeEntry(prev, es[0]) + EncodeEntries(es[0].key, es[1..])
  }

  function LastKey(prev: ByteString, es: seq<Entry>): ByteString {
    if es == [] then prev else es[|es| - 1].key
  }

  lemma {:induction false} EncodeEntriesAppend(prev: ByteString, es: seq<Entry>, e: Entry)
    ensures EncodeEntries(prev, es + [e]) == EncodeEntries(prev, es) + EncodeEntry(LastKey(prev, es), e)
    decreases es
  {
    if es == [] {
      assert es + [e] == [e] && [e][1..] == [];
    } else {
      assert (es + [e])[1..] == es[1..] + [e];
      EncodeEntriesAppend(es[0].key, es[1..], e);
      Regroup(EncodeEntry(prev, es[0]), EncodeEntries(es[0].key, es[1..]), EncodeEntry(LastKey(prev, es), e));
    }
  }

  /** Lengths are machine words. */
  predicate WordSized(e: Entry) {
    |e.key| < WORD && |e.value| < WORD
  }

  /** Appends one entry, compressed against the last key, to the buffer. */
  method WriteEntry(buffer: ByteString, lastKey: ByteString, e: Entry) returns (out: ByteString)
    requires WordSized(e)
    ensures out == buffer + EncodeEntry(lastKey, e)
  {
    hide CommonPrefixLen, VarintBytes, LittleEndian;
    var shared := ComputeCommonPrefixLen(lastKey, e.key);
    var unshared := |e.key| - shared;
    out := EncodeVarint(buffer, shared);
    out := EncodeVarint(out, unshared);
    out := EncodeVarint(out, |e.value|);
    out := out + e.key[shared..];
    out := out + e.value;
    out := out + LittleEndian(e.timestamp, 8);
  }

  class BlockBuilder {
    const codec: Codec
    var buffer: ByteString
    var lastKey: ByteString
    var firstKey: Option<ByteString>
    var entriesCount: nat

    ghost var contents: seq<Entry>

    ghost predicate Valid()
      reads this
    {
      && buffer == EncodeEntries([], contents)
      && lastKey == LastKey([], contents)
      && firstKey == (if contents == [] then None else Some(contents[0].key))
      && entriesCount == |contents|
    }

    constructor (codec: Codec)
      ensures Valid() && contents == [] && this.codec == codec
    {
      this.codec := codec;
      buffer, lastKey, firstKey, entriesCount, contents := [], [], None, 0, [];
    }

    method Add(key: ByteString, value: ByteString, timestamp: U64)
      requires Valid() && WordSized(Entry(key, value, timestamp))
      modifies this
      ensures Valid() && contents == old(contents) + [Entry(key, value, timestamp)]
    {
      hide EncodeEntry, EncodeEntries;
      var e := Entry(key, value, timestamp);
      EncodeEntriesAppend([], contents, e);
      if firstKey.None? {
        firstKey := Some(key);
      }
      buffer := WriteEntry(buffer, lastKey, e);
      lastKey := key;
      entriesCount := entriesCount + 1;
      contents := contents + [e];
    }

    function Size(): nat
      reads this
    {
      |buffer|
    }

    predicate IsEmpty()
      reads this
    {
      entriesCount == 0
    }

    function Finish(): Result<ByteString>
      reads this
    {
      if IsEmpty() then Ok([])
      else match codec.compress(buffer) case Some(c) => Ok(c) case None => Err(InvalidFormat)
    }

    method Reset()
      modifies this
      ensures Valid() && contents == []
    {
      buffer, lastKey, firstKey, entriesCount, contents := [], [], None, 0, [];
    }
  }

  // ---------- decoding ----------

  /** One entry from the front of the block, given the key before it. */
  function DecodeEntry(data: ByteString, prev: ByteString): (r: Result<(Entry, ByteString)>)
    ensures r.Ok? ==> |r.value.1| < |data|
  {
    var (shared, d1) :- Decode(data);
    var (unshared, d2) :- Decode(d1);
    var (valueLen, d3) :- Decode(d2);
    if shared > |prev| then Err(CorruptedData)
    else if |d3| < unshared then Err(CorruptedData)
    else
      var key := prev[..shared] + d3[..unshared];
      var d4 := d3[unshared..];
      if |d4| < valueLen then Err(CorruptedData)
      else
        var d5 := d4[valueLen..];
        if |d5| < 8 then Err(CorruptedData)
        else if prev != [] && AtMost(key, prev) then Err(CorruptedData)
        else Ok((Entry(key, d4[..valueLen], GetU64(d5)), d5[8..]))
  }

  function DecodeEntries(data: ByteString, prev: ByteString): Result<seq<Entry>>
    decreases |data|
  {
    if data == [] then Ok([])
    else
      var (e, rest) :- DecodeEntry(data, prev);
      var es :- DecodeEntries(rest, e.key);
      Ok([e] + es)
  }

  method DecodeBlock(data: ByteString) returns (r: Result<seq<Entry>>)
    ensures r == DecodeEntries(data, [])
  {
    hide AtMost;
    var entries: seq<Entry> := [];
    var cursor := data;
    var previousKey: ByteString := [];
    assert forall more: seq<Entry> :: [] + more == more;
    while cursor != []
      invariant DecodeEntries(data, []) == Prepend(entries, DecodeEntries(cursor, previousKey))
      decreases |cursor|
    {
      ghost var front := cursor;
      var shared :- DecodeVarint(cursor);
      var unshared :- DecodeVarint(shared.1);
      var valueLen :- DecodeVarint(unshared.1);
      cursor := valueLen.1;
      if shared.0 > |previousKey| {
        return Err(CorruptedData);
      }
      var key := previousKey[..shared.0];
      if |cursor| < unshared.0 {
        return Err(CorruptedData);
      }
      key := key + cursor[..unshared.0];
      cursor := cursor[unshared.0..];
      if |cursor| < valueLen.0 {
        return Err(CorruptedData);
      }
      var value := cursor[..valueLen.0];
      cursor := cursor[valueLen.0..];
      if |cursor| < 8 {
        return Err(CorruptedData);
      }
      var timestamp := GetU64(cursor);
      cursor := cursor[8..];
      if previousKey != [] && AtMost(key, previousKey) {
        return Err(CorruptedData);
      }
      var e := Entry(key, value, timestamp);
      assert DecodeEntry(front, previousKey) == Ok((e, cursor));
      assert forall more: seq<Entry> :: entries + ([e] + more) == (entries + [e]) + more;
      previousKey, entries := key, entries + [e];
    }
    assert entries + [] == entries;
    return Ok(entries);
  }

  // ---------- round trip ----------

  /** The key may follow `prev`: the order check is skipped after an empty key. */
  predicate MayFollow(prev: ByteString, key: ByteString) {
    prev == [] || Less(prev, key)
  }

  /** What any three lengths, key bytes, value and timestamp decode to, whether or not the shared length is
      the longest possible. */
  lemma DecodeFields(prev: ByteString, shared: U64, delta: ByteString, value: ByteString, timestamp: U64,
                     rest: ByteString)
    requires |delta| < WORD && |value| < WORD
    ensures DecodeEntry(VarintBytes(shared) + VarintBytes(|delta|) + VarintBytes(|value|) + delta + value
                        + LittleEndian(timestamp, 8) + rest, prev) ==
            if shared > |prev| || (prev != [] && AtMost(prev[..shared] + delta, prev)) then Err(CorruptedData)
            else Ok((Entry(prev[..shared] + delta, value, timestamp), rest))
  {
    hide VarintBytes, LittleEndian, LittleEndianValue, Decode, AtMost;
    var stamp := LittleEndian(timestamp, 8);
    var d5 := stamp + rest;
    var d3 := delta + (value + d5);
    var d2 := VarintBytes(|value|) + d3;
    var d1 := VarintBytes(|delta|) + d2;
    FrontToBack(VarintBytes(shared), VarintBytes(|delta|), VarintBytes(|value|), delta, value, stamp, rest);
    VarintRoundTrip(shared, d1);
    VarintRoundTrip(|delta|, d2);
    VarintRoundTrip(|value|, d3);
    TakeDrop(delta, value + d5);
    TakeDrop(value, d5);
    TakeDrop(stamp, rest);
    U64RoundTrip(timestamp);
  }

  /** An entry is stored with the longest prefix it shares with the key before it. */
  lemma EntryLayout(prev: ByteString, e: Entry, n: nat)
    requires n <= |prev| && n <= |e.key| && prev[..n] == e.key[..n]
    requires n < |prev| && n < |e.key| ==> prev[n] != e.key[n]
    ensures EncodeEntry(prev, e) ==
            VarintBytes(n) + VarintBytes(|e.key| - n) + VarintBytes(|e.value|) + e.key[n..] + e.value
            + LittleEndian(e.timestamp, 8)
  {
    CommonPrefixUnique(prev, e.key, n);
  }

  lemma EntryRoundTrip(prev: ByteString, e: Entry, rest: ByteString)
    requires WordSized(e) && MayFollow(prev, e.key)
    ensures DecodeEntry(EncodeEntry(prev, e) + rest, prev) == Ok((e, rest))
  {
    hide VarintBytes, LittleEndian, DecodeEntry;
    var n := CommonPrefixLen(prev, e.key);
    CommonPrefixCorrect(prev, e.key);
    EntryLayout(prev, e, n);
    DecodeFields(prev, n, e.key[n..], e.value, e.timestamp, rest);
    assert prev[..n] + e.key[n..] == e.key;
    LessTrichotomy(prev, e.key);
  }

  lemma FrontToBack(a: ByteString, b: ByteString, c: ByteString, d: ByteString, e: ByteString, f: ByteString,
                    rest: ByteString)
    ensures a + b + c + d + e + f + rest == a + (b + (c + (d + (e + (f + rest)))))
  {}

  /** Each key may follow the one before it. */
  predicate Chained(prev: ByteString, es: seq<Entry>)
    decreases es
  {
    es == [] || (MayFollow(prev, es[0].key) && Chained(es[0].key, es[1..]))
  }

  ghost predicate AllWordSized(es: seq<Entry>) {
    forall i :: 0 <= i < |es| ==> WordSized(es[i])
  }

  lemma {:induction false} ChainedRoundTrip(prev: ByteString, es: seq<Entry>)
    requires AllWordSized(es) && Chained(prev, es)
    ensures DecodeEntries(EncodeEntries(prev, es), prev) == Ok(es)
    decreases es
  {
    if es != [] {
      hide DecodeEntry, EncodeEntry, MayFollow;
      var rest := EncodeEntries(es[0].key, es[1..]);
      EntryRoundTrip(prev, es[0], rest);
      EntryNotEmpty(prev, es[0]);
      ChainedRoundTrip(es[0].key, es[1..]);
      assert [es[0]] + es[1..] == es;
    }
  }

  lemma EntryNotEmpty(prev: ByteString, e: Entry)
    ensures EncodeEntry(prev, e) != []
  {
    assert |LittleEndian(e.timestamp, 8)| == 8;
  }

  lemma {:induction false} SortedChained(prev: ByteString, es: seq<Entry>)
    requires Sorted(es) && (es != [] ==> MayFollow(prev, es[0].key))
    ensures Chained(prev, es)
    decreases es
  {
    if |es| > 1 {
      SortedChained(es[0].key, es[1..]);
    }
  }

  /** Decoding a block built from a strictly sorted list gives back the list. */
  lemma BlockRoundTrip(es: seq<Entry>)
    requires Sorted(es) && AllWordSized(es)
    ensures DecodeEntries(EncodeEntries([], es), []) == Ok(es)
  {
    SortedChained([], es);
    ChainedRoundTrip([], es);
  }

  // ---------- soundness on arbitrary bytes ----------

  /** Bytes that are not a block are reported as corrupted data, never in another way. */
  lemma {:induction false} DecodeErrors(data: ByteString, prev: ByteString)
    ensures DecodeEntries(data, prev).Err? ==> DecodeEntries(data, prev).error == CorruptedData
    decreases |data|
  {
    if data != [] {
      OneEntryErrors(data, prev);
      if DecodeEntry(data, prev).Ok? {
        var (e, rest) := DecodeEntry(data, prev).value;
        DecodeErrors(rest, e.key);
      }
    }
  }

  lemma OneEntryErrors(data: ByteString, prev: ByteString)
    ensures DecodeEntry(data, prev).Err? ==> DecodeEntry(data, prev).error == CorruptedData
  {
    hide AtMost, DecodeFrom;
    forall d: ByteString ensures Decode(d).Err? ==> Decode(d).error == CorruptedData {
      VarintErrors(d, 0, 0);
    }
  }

  /** Whatever the bytes, a decoded key list passed the order check at every step, and no key or
      value is longer than the block. */
  lemma {:induction false} DecodedChained(data: ByteString, prev: ByteString)
    requires DecodeEntries(data, prev).Ok?
    ensures var es := DecodeEntries(data, prev).value;
            && Chained(prev, es)
            && forall i :: 0 <= i < |es| ==> |es[i].key| <= |prev| + |data| && |es[i].value| <= |data|
    decreases |data|
  {
    if data != [] {
      var (e, rest) := DecodeEntry(data, prev).value;
      DecodedOne(data, prev);
      DecodedChained(rest, e.key);
      assert DecodeEntries(data, prev).value[1..] == DecodeEntries(rest, e.key).value;
    }
  }

  lemma DecodedOne(data: ByteString, prev: ByteString)
    requires DecodeEntry(data, prev).Ok?
    ensures var (e, rest) := DecodeEntry(data, prev).value;
            MayFollow(prev, e.key) && |e.value| <= |data| && |e.key| + |rest| <= |prev| + |data|
  {
    hide Decode;
    LessTrichotomy(prev, DecodeEntry(data, prev).value.0.key);
  }

  /** A chained list is a run of empty keys followed by strictly increasing, non-empty keys. */
  lemma {:induction false} ChainedShape(prev: ByteString, es: seq<Entry>) returns (m: nat)
    requires Chained(prev, es)
    ensures m <= |es|
    ensures forall i :: 0 <= i < m ==> es[i].key == []
    ensures forall i :: m <= i < |es| ==> es[i].key != []
    ensures Sorted(es[m..])
    ensures prev != [] ==> m == 0 && forall i :: 0 <= i < |es| ==> Less(prev, es[i].key)
    decreases es
  {
    if es == [] {
      m := 0;
    } else {
      var first := es[0].key;
      var n := ChainedShape(first, es[1..]);
      if first == [] {
        m := n + 1;
        assert es[m..] == es[1..][n..];
      } else {
        m := 0;
        assert es[1..][n..] == es[1..] && es[m..] == es;
        if prev != [] {
          forall i | 0 <= i < |es| ensures Less(prev, es[i].key) {
            if i > 0 {
              assert es[i] == es[1..][i - 1];
              LessTransitive(prev, first, es[i].key);
            }
          }
        }
      }
    }
  }

  /** The decoder on any byte string: failure, or empty keys then strictly increasing keys, and
      encoding the result and decoding again changes nothing. */
  lemma DecoderSound(data: ByteString) returns (m: nat)
    requires |data| < WORD
    requires DecodeEntries(data, []).Ok?
    ensures var es := DecodeEntries(data, []).value;
            && m <= |es|
            && (forall i :: 0 <= i < m ==> es[i].key == [])
            && Sorted(es[m..])
            && DecodeEntries(EncodeEntries([], es), []) == Ok(es)
  {
    var es := DecodeEntries(data, []).value;
    DecodedChained(data, []);
    m := ChainedShape([], es);
    ChainedRoundTrip([], es);
  }
}
