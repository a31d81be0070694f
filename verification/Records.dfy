/** Log records (src/wal.rs): their bytes, reading them back, and replaying a segment file. */
module Records {
  import opened Bytes
  import opened Results
  import opened Entries

  datatype OpType = Put | Delete

  datatype LogRecord = LogRecord(op: OpType, entry: Entry)

  /** CRC-32 over the bytes fed to the hasher. */
  type Checksum = ByteString -> U32

  function OpByte(op: OpType): Byte {
    match op case Put => 1 case Delete => 2
  }

  function OpFromByte(b: Byte): Option<OpType> {
    if b == 1 then Some(Put) else if b == 2 then Some(Delete) else None
  }

  // ---------- encoding ----------

  const MAX_DATA: nat := 0xFFFF
  const RECORD_HEADER: nat := 7

  /** timestamp, key length, key, value length, value */
  function DataBytes(e: Entry): (data: ByteString)
    ensures |data| == |e.key| + |e.value| + 14
  {
    LittleEndian(e.timestamp, 8) + LittleEndian(|e.key|, 2) + e.key + LittleEndian(|e.value|, 4) + e.value
  }

  function Checked(op: Byte, data: ByteString): ByteString {
    LittleEndian(|data|, 2) + [op] + data
  }

  /** checksum, data length, operation, data */
  function RecordBytes(crc: Checksum, r: LogRecord): (bytes: ByteString)
    ensures |bytes| == RECORD_HEADER + |r.entry.key| + |r.entry.value| + 14
  {
    var data := DataBytes(r.entry);
    LittleEndian(crc(Checked(OpByte(r.op), data)), 4) + Checked(OpByte(r.op), data)
  }

  function Encode(crc: Checksum, r: LogRecord): Result<ByteString> {
    if |r.entry.key| > 0xFFFF then Err(InvalidFormat)
    else if |r.entry.value| > 0xFFFF_FFFF then Err(InvalidFormat)
    else if |DataBytes(r.entry)| > MAX_DATA then Err(InvalidFormat)
    else Ok(RecordBytes(crc, r))
  }

  /** What the log accepts: the 16-bit length limits key and value together. */
  predicate Accepted(e: Entry) {
    |e.key| + |e.value| + 14 <= MAX_DATA
  }

  /** Where the fields of a record are: all numbers are little-endian, and the checksum covers
      everything after itself. */
  lemma RecordLayout(crc: Checksum, r: LogRecord)
    requires Accepted(r.entry)
    ensures var bytes, k, v := RecordBytes(crc, r), |r.entry.key|, |r.entry.value|;
            && |bytes| == 21 + k + v
            && LittleEndianValue(bytes[..4]) == crc(bytes[4..])
            && LittleEndianValue(bytes[4..6]) == 14 + k + v
            && bytes[6] == (if r.op == Put then 1 else 2)
            && LittleEndianValue(bytes[7..15]) == r.entry.timestamp
            && LittleEndianValue(bytes[15..17]) == k && bytes[17..17 + k] == r.entry.key
            && LittleEndianValue(bytes[17 + k..21 + k]) == v && bytes[21 + k..] == r.entry.value
  {
    hide LittleEndian, LittleEndianValue;
    var bytes, k, v := RecordBytes(crc, r), |r.entry.key|, |r.entry.value|;
    var data := DataBytes(r.entry);
    U32RoundTrip(crc(Checked(OpByte(r.op), data)));
    U16RoundTrip(14 + k + v);
    U64RoundTrip(r.entry.timestamp);
    U16RoundTrip(k);
    U32RoundTrip(v);
    assert bytes[4..] == Checked(OpByte(r.op), data);
    assert bytes[..4] == LittleEndian(crc(Checked(OpByte(r.op), data)), 4);
    assert bytes[4..6] == LittleEndian(14 + k + v, 2);
    assert bytes[7..] == data;
    assert bytes[7..15] == data[..8] == LittleEndian(r.entry.timestamp, 8);
    assert bytes[15..17] == data[8..10] == LittleEndian(k, 2);
    assert bytes[17..17 + k] == data[10..10 + k] == r.entry.key;
    assert bytes[17 + k..21 + k] == data[10 + k..14 + k] == LittleEndian(v, 4);
    assert bytes[21 + k..] == data[14 + k..] == r.entry.value;
  }

  lemma EncodeAcceptsIff(crc: Checksum, r: LogRecord)
    ensures Encode(crc, r).Ok? <==> Accepted(r.entry)
    ensures Accepted(r.entry) <==> |r.entry.key| + |r.entry.value| <= 65521
    ensures Encode(crc, r).Err? ==> Encode(crc, r).error == InvalidFormat
  {}

  method EncodeRecord(crc: Checksum, op: OpType, entry: Entry) returns (r: Result<ByteString>)
    ensures r == Encode(crc, LogRecord(op, entry))
  {
    var data: ByteString := LittleEndian(entry.timestamp, 8);
    if |entry.key| > 0xFFFF {
      return Err(InvalidFormat);
    }
    data := data + LittleEndian(|entry.key|, 2);
    data := data + entry.key;
    if |entry.value| > 0xFFFF_FFFF {
      return Err(InvalidFormat);
    }
    data := data + LittleEndian(|entry.value|, 4);
    data := data + entry.value;
    var dataLen := |data|;
    if dataLen > MAX_DATA {
      return Err(InvalidFormat);
    }
    var checksum := crc(LittleEndian(dataLen, 2) + [OpByte(op)] + data);
    var record := LittleEndian(checksum, 4);
    record := record + LittleEndian(dataLen, 2);
    record := record + [OpByte(op)];
    record := record + data;
    assert record == RecordBytes(crc, LogRecord(op, entry));
    return Ok(record);
  }

  // ---------- reading ----------

  datatype ReadOutcome =
    | Record(record: LogRecord, rest: ByteString)
    | EndOfFile
    | Failed(error: Error)

  /** The fields of a record's data; a read past the end aborts, except where a length is checked. */
  function ParseData(data: ByteString): Result<Entry> {
    if |data| < 10 then Err(Panic)
    else
      var timestamp := GetU64(data);
      var keyLen := GetU16(data[8..]);
      var buf := data[10..];
      if |buf| < keyLen then Err(Corruption)
      else
        var key := buf[..keyLen];
        var tail := buf[keyLen..];
        if |tail| < 4 then Err(Panic)
        else
          var valueLen := GetU32(tail);
          if |tail| - 4 < valueLen then Err(Corruption)
          else Ok(Entry(key, tail[4..4 + valueLen], timestamp))
  }

  /** One record from the front of the file. Fewer than seven bytes count as the end. */
  function ReadRecord(crc: Checksum, file: ByteString): (r: ReadOutcome)
    ensures r.Record? ==> |r.rest| < |file|
  {
    if |file| < RECORD_HEADER then EndOfFile
    else
      var checksum := GetU32(file);
      var length := GetU16(file[4..]);
      var op := OpFromByte(file[6]);
      if op.None? then Failed(InvalidFormat)
      else if |file| - RECORD_HEADER < length then Failed(Io)
      else
        var data := file[RECORD_HEADER..RECORD_HEADER + length];
        if crc(Checked(file[6], data)) != checksum then Failed(Corruption)
        else
          match ParseData(data)
          case Ok(entry) => Record(LogRecord(op.value, entry), file[RECORD_HEADER + length..])
          case Err(e) => Failed(e)
  }

  /** Replaying one segment: a checksum mismatch ends it quietly, any other error is returned. */
  function Recover(crc: Checksum, file: ByteString): Result<seq<Entry>>
    decreases |file|
  {
    match ReadRecord(crc, file)
    case EndOfFile => Ok([])
    case Failed(e) => if e == Corruption then Ok([]) else Err(e)
    case Record(r, rest) => Prepend([r.entry], Recover(crc, rest))
  }

  method RecoverSegment(crc: Checksum, file: ByteString) returns (r: Result<seq<Entry>>)
    ensures r == Recover(crc, file)
  {
    var cursor := file;
    var entries: seq<Entry> := [];
    assert forall more: seq<Entry> :: [] + more == more;
    while true
      invariant Recover(crc, file) == Prepend(entries, Recover(crc, cursor))
      decreases |cursor|
    {
      match ReadRecord(crc, cursor) {
        case Record(record, rest) =>
          assert forall more: seq<Entry> :: entries + ([record.entry] + more) == (entries + [record.entry]) + more;
          cursor, entries := rest, entries + [record.entry];
        case EndOfFile =>
          assert entries + [] == entries;
          break;
        case Failed(Corruption) =>
          assert entries + [] == entries;
          break;
        case Failed(e) => return Err(e);
      }
    }
    return Ok(entries);
  }

  // ---------- round trip ----------

  function EncodeAll(crc: Checksum, rs: seq<LogRecord>): ByteString {
    if rs == [] then [] else RecordBytes(crc, rs[0]) + EncodeAll(crc, rs[1..])
  }

  function EntriesOf(rs: seq<LogRecord>): (es: seq<Entry>)
    ensures |es| == |rs|
  {
    if rs == [] then [] else [rs[0].entry] + EntriesOf(rs[1..])
  }

  predicate AllAccepted(rs: seq<LogRecord>) {
    forall i :: 0 <= i < |rs| ==> Accepted(rs[i].entry)
  }

  /** Reading a record written in front of anything returns it and leaves the rest. */
  lemma RecordRoundTrip(crc: Checksum, r: LogRecord, rest: ByteString)
    requires Accepted(r.entry)
    ensures ReadRecord(crc, RecordBytes(crc, r) + rest) == Record(r, rest)
  {
    hide ReadRecord, ParseData, Checked, LittleEndian;
    var data := DataBytes(r.entry);
    RawRecord(crc, crc(Checked(OpByte(r.op), data)), OpByte(r.op), data, rest);
    ParseBefore(r.entry, []);
    assert data + [] == data;
  }

  /** Whatever follows whole records, recovery yields those records and then what the tail yields. */
  lemma {:induction false} RecoverPrefix(crc: Checksum, rs: seq<LogRecord>, tail: ByteString)
    requires AllAccepted(rs)
    ensures Recover(crc, EncodeAll(crc, rs) + tail) == Prepend(EntriesOf(rs), Recover(crc, tail))
  {
    hide ReadRecord, RecordBytes;
    if rs == [] {
      assert EncodeAll(crc, rs) + tail == tail;
      assert forall more: seq<Entry> :: [] + more == more;
    } else {
      var others := EncodeAll(crc, rs[1..]) + tail;
      assert EncodeAll(crc, rs) + tail == RecordBytes(crc, rs[0]) + others;
      RecordRoundTrip(crc, rs[0], others);
      RecoverPrefix(crc, rs[1..], tail);
      assert forall more: seq<Entry> ::
          [rs[0].entry] + (EntriesOf(rs[1..]) + more) == ([rs[0].entry] + EntriesOf(rs[1..])) + more;
    }
  }

  lemma RecoverRoundTrip(crc: Checksum, rs: seq<LogRecord>)
    requires AllAccepted(rs)
    ensures Recover(crc, EncodeAll(crc, rs)) == Ok(EntriesOf(rs))
  {
    RecoverPrefix(crc, rs, []);
    assert EncodeAll(crc, rs) + [] == EncodeAll(crc, rs);
    assert EntriesOf(rs) + [] == EntriesOf(rs);
  }

  lemma {:induction false} EncodeAllConcat(crc: Checksum, a: seq<LogRecord>, b: seq<LogRecord>)
    ensures EncodeAll(crc, a + b) == EncodeAll(crc, a) + EncodeAll(crc, b)
  {
    if a == [] {
      assert a + b == b;
    } else {
      assert (a + b)[1..] == a[1..] + b;
      EncodeAllConcat(crc, a[1..], b);
    }
  }

  lemma EncodeAllEmpty(crc: Checksum)
    ensures EncodeAll(crc, []) == []
    ensures Recover(crc, []) == Ok([])
  {}

  lemma EncodeAllSingle(crc: Checksum, r: LogRecord)
    ensures EncodeAll(crc, [r]) == RecordBytes(crc, r)
  {
    assert [r][1..] == [];
  }

  lemma {:induction false} EntriesOfConcat(a: seq<LogRecord>, b: seq<LogRecord>)
    ensures EntriesOf(a + b) == EntriesOf(a) + EntriesOf(b)
  {
    if a == [] {
      assert a + b == b;
    } else {
      assert (a + b)[1..] == a[1..] + b;
      EntriesOfConcat(a[1..], b);
    }
  }

  // ---------- damaged records ----------

  /** Reading a checksum, a length, an operation and data of that length, in front of anything. */
  lemma RawRecord(crc: Checksum, sum: U32, op: Byte, data: ByteString, rest: ByteString)
    requires |data| <= 0xFFFF
    ensures ReadRecord(crc, LittleEndian(sum, 4) + Checked(op, data) + rest) ==
            if op != 1 && op != 2 then Failed(InvalidFormat)
            else if sum != crc(Checked(op, data)) then Failed(Corruption)
            else match ParseData(data)
                 case Ok(e) => Record(LogRecord(if op == 1 then Put else Delete, e), rest)
                 case Err(e) => Failed(e)
  {
    hide LittleEndian, LittleEndianValue, ParseData;
    var file := LittleEndian(sum, 4) + Checked(op, data) + rest;
    assert file[..4] == LittleEndian(sum, 4);
    U32RoundTrip(sum);
    assert file[4..][..2] == LittleEndian(|data|, 2);
    U16RoundTrip(|data|);
    assert file[6] == op;
    assert file[RECORD_HEADER..RECORD_HEADER + |data|] == data;
    assert file[RECORD_HEADER + |data|..] == rest;
  }

  /** What any record after whole ones does to the replay: an unknown operation fails it, a checksum that does
      not match ends it quietly, and so do lengths that do not fit; data too short for its fields aborts. */
  lemma RecoverRaw(crc: Checksum, rs: seq<LogRecord>, sum: U32, op: Byte, data: ByteString, rest: ByteString)
    requires AllAccepted(rs) && |data| <= 0xFFFF
    ensures var before := EntriesOf(rs);
            Recover(crc, EncodeAll(crc, rs) + LittleEndian(sum, 4) + Checked(op, data) + rest) ==
            if op != 1 && op != 2 then Err(InvalidFormat)
            else if sum != crc(Checked(op, data)) || ParseData(data) == Err(Corruption) then Ok(before)
            else if ParseData(data).Err? then Err(ParseData(data).error)
            else Prepend(before + [ParseData(data).value], Recover(crc, rest))
  {
    hide ReadRecord, EncodeAll, ParseData, Checked;
    var tail := LittleEndian(sum, 4) + Checked(op, data) + rest;
    RawRecord(crc, sum, op, data, rest);
    RecoverPrefix(crc, rs, tail);
    assert EncodeAll(crc, rs) + LittleEndian(sum, 4) + Checked(op, data) + rest == EncodeAll(crc, rs) + tail;
    assert EntriesOf(rs) + [] == EntriesOf(rs);
    assert forall e: Entry, more: seq<Entry> :: EntriesOf(rs) + ([e] + more) == (EntriesOf(rs) + [e]) + more;
  }

  /** A record whose checksum is not that of its bytes ends the replay quietly: the records before it
      are recovered, and neither it nor anything after it is. */
  lemma DamagedRecord(crc: Checksum, rs: seq<LogRecord>, op: OpType, data: ByteString, sum: U32, rest: ByteString)
    requires AllAccepted(rs) && |data| <= 0xFFFF && sum != crc(Checked(OpByte(op), data))
    ensures Recover(crc, EncodeAll(crc, rs) + LittleEndian(sum, 4) + Checked(OpByte(op), data) + rest) ==
            Ok(EntriesOf(rs))
  {
    hide Recover, EncodeAll, ParseData, Checked;
    RecoverRaw(crc, rs, sum, OpByte(op), data, rest);
  }

  /** The data of a record parses as an entry if and only if it starts with the entry's encoding. */
  lemma ParseExactly(data: ByteString, e: Entry)
    ensures ParseData(data) == Ok(e) <==>
            |e.key| <= 0xFFFF && |e.value| <= 0xFFFF_FFFF && DataBytes(e) <= data
  {
    if |e.key| <= 0xFFFF && |e.value| <= 0xFFFF_FFFF && DataBytes(e) <= data {
      ParseBefore(e, data[|DataBytes(e)|..]);
      assert data == DataBytes(e) + data[|DataBytes(e)|..];
    }
    if ParseData(data) == Ok(e) {
      ParsedStarts(data, e);
    }
  }

  lemma ParsedStarts(data: ByteString, e: Entry)
    requires ParseData(data) == Ok(e)
    ensures |e.key| <= 0xFFFF && |e.value| <= 0xFFFF_FFFF && DataBytes(e) <= data
  {
    hide LittleEndian, LittleEndianValue;
    var k, v := |e.key|, |e.value|;
    LittleEndianUnique(data[..8]);
    LittleEndianUnique(data[8..][..2]);
    LittleEndianUnique(data[10 + k..][..4]);
    assert data[10..][k..] == data[10 + k..];
    var upTo := 14 + k + v;
    assert data[..upTo] == data[..8] + data[8..10] + data[10..10 + k] + data[10 + k..14 + k] + data[14 + k..upTo];
    assert data[8..][..2] == data[8..10] && data[10 + k..][..4] == data[10 + k..14 + k];
    assert e.key == data[10..10 + k] && e.value == data[14 + k..upTo];
  }

  lemma ParseBefore(e: Entry, extra: ByteString)
    requires |e.key| <= 0xFFFF && |e.value| <= 0xFFFF_FFFF
    ensures ParseData(DataBytes(e) + extra) == Ok(e)
  {
    hide LittleEndian, LittleEndianValue, ParseData;
    var ts, kl, vl := LittleEndian(e.timestamp, 8), LittleEndian(|e.key|, 2), LittleEndian(|e.value|, 4);
    U64RoundTrip(e.timestamp);
    U16RoundTrip(|e.key|);
    U32RoundTrip(|e.value|);
    FrontFields(ts, kl, e.key, vl + e.value, extra);
    BackFields(vl, e.value, extra);
    assert DataBytes(e) + extra == ts + kl + e.key + (vl + e.value) + extra;
    ParseParts(DataBytes(e) + extra, e, vl + e.value + extra);
  }

  lemma ParseParts(data: ByteString, e: Entry, tail: ByteString)
    requires |data| >= 10 && data[10..] == e.key + tail && |tail| >= 4 + |e.value|
    requires LittleEndianValue(data[..8]) == e.timestamp && LittleEndianValue(data[8..][..2]) == |e.key|
    requires LittleEndianValue(tail[..4]) == |e.value| && tail[4..4 + |e.value|] == e.value
    ensures ParseData(data) == Ok(e)
  {
    hide LittleEndianValue;
    TakeDrop(e.key, tail);
  }

  lemma FrontFields(a: ByteString, b: ByteString, key: ByteString, c: ByteString, extra: ByteString)
    requires |a| == 8 && |b| == 2
    ensures var data := a + b + key + c + extra;
            data[..8] == a && data[8..][..2] == b && data[10..] == key + (c + extra)
  {}

  lemma BackFields(a: ByteString, value: ByteString, extra: ByteString)
    requires |a| == 4
    ensures var tail := a + value + extra; tail[..4] == a && tail[4..4 + |value|] == value
  {}

  /** A length field that promises more than there is counts as corruption, and data too short for its
      fixed fields aborts. */
  lemma ParseErrors(timestamp: U64, keyLen: U16, key: ByteString, valueLen: U32, value: ByteString)
    ensures |key| < keyLen ==>
              ParseData(LittleEndian(timestamp, 8) + LittleEndian(keyLen, 2) + key) == Err(Corruption)
    ensures |key| == keyLen && |value| < valueLen ==>
              ParseData(LittleEndian(timestamp, 8) + LittleEndian(keyLen, 2) + key + LittleEndian(valueLen, 4) + value)
              == Err(Corruption)
    ensures |key| < 10 ==> ParseData(key) == Err(Panic)
    ensures |key| == keyLen && |value| < 4 ==>
              ParseData(LittleEndian(timestamp, 8) + LittleEndian(keyLen, 2) + key + value) == Err(Panic)
  {
    hide LittleEndian, LittleEndianValue;
    U16RoundTrip(keyLen);
    U32RoundTrip(valueLen);
    var front := LittleEndian(timestamp, 8) + LittleEndian(keyLen, 2);
    forall tail: ByteString
      ensures (front + tail)[8..][..2] == LittleEndian(keyLen, 2) && (front + tail)[10..] == tail {}
    var field := LittleEndian(valueLen, 4) + value;
    if |key| == keyLen {
      assert front + key + LittleEndian(valueLen, 4) + value == front + (key + field);
      assert front + key + value == front + (key + value);
      TakeDrop(key, field);
      TakeDrop(key, value);
      TakeDrop(LittleEndian(valueLen, 4), value);
    }
  }

  // ---------- torn tails ----------

  /** `n` records lie wholly before the cut, and the next one does not. */
  predicate CutAfter(crc: Checksum, rs: seq<LogRecord>, n: nat, cut: nat) {
    && n <= |rs|
    && |EncodeAll(crc, rs[..n])| <= cut <= |EncodeAll(crc, rs)|
    && (n < |rs| ==> cut < |EncodeAll(crc, rs[..n + 1])|)
  }

  lemma {:induction false} CutExists(crc: Checksum, rs: seq<LogRecord>, cut: nat) returns (n: nat)
    requires cut <= |EncodeAll(crc, rs)|
    ensures CutAfter(crc, rs, n, cut)
  {
    n := |rs|;
    assert rs[..n] == rs;
    while cut < |EncodeAll(crc, rs[..n])|
      invariant n <= |rs|
      invariant n < |rs| ==> cut < |EncodeAll(crc, rs[..n + 1])|
      decreases n
    {
      assert n > 0 by {
        assert rs[..0] == [];
      }
      n := n - 1;
    }
  }

  /** Truncating a segment at any byte: recovery returns exactly the whole records before the cut
      when fewer than seven bytes of the next one remain, and an I/O error when the cut is inside
      a record's body. */
  lemma TornTail(crc: Checksum, rs: seq<LogRecord>, n: nat, cut: nat)
    requires AllAccepted(rs) && CutAfter(crc, rs, n, cut)
    ensures Recover(crc, EncodeAll(crc, rs)[..cut]) ==
            if cut - |EncodeAll(crc, rs[..n])| < RECORD_HEADER then Ok(EntriesOf(rs[..n])) else Err(Io)
  {
    hide ReadRecord, RecordBytes;
    EncodeAllEmpty(crc);
    var whole, suffix := EncodeAll(crc, rs[..n]), EncodeAll(crc, rs[n..]);
    var k := cut - |whole|;
    assert rs == rs[..n] + rs[n..];
    EncodeAllConcat(crc, rs[..n], rs[n..]);
    TakeWithin(whole, suffix, k);
    RecoverPrefix(crc, rs[..n], suffix[..k]);
    if n < |rs| {
      TornRest(crc, rs, n, k);
    } else {
      assert rs[..n] == rs;
    }
    assert EntriesOf(rs[..n]) + [] == EntriesOf(rs[..n]);
  }

  lemma TornRest(crc: Checksum, rs: seq<LogRecord>, n: nat, cut: nat)
    requires AllAccepted(rs) && n < |rs|
    requires |EncodeAll(crc, rs[..n])| + cut < |EncodeAll(crc, rs[..n + 1])|
    ensures cut <= |EncodeAll(crc, rs[n..])|
    ensures ReadRecord(crc, EncodeAll(crc, rs[n..])[..cut]) ==
            if cut < RECORD_HEADER then EndOfFile else Failed(Io)
  {
    assert rs[..n + 1] == rs[..n] + [rs[n]];
    EncodeAllConcat(crc, rs[..n], [rs[n]]);
    EncodeAllSingle(crc, rs[n]);
    assert rs[n..][1..] == rs[n + 1..];
    TornRecord(crc, rs[n], EncodeAll(crc, rs[n + 1..]), cut);
  }

  lemma TornRecord(crc: Checksum, r: LogRecord, rest: ByteString, cut: nat)
    requires Accepted(r.entry) && cut < |RecordBytes(crc, r)|
    ensures ReadRecord(crc, (RecordBytes(crc, r) + rest)[..cut]) ==
            if cut < RECORD_HEADER then EndOfFile else Failed(Io)
  {
    if cut >= RECORD_HEADER {
      var data := DataBytes(r.entry);
      var torn := (RecordBytes(crc, r) + rest)[..cut];
      assert torn[4..][..2] == LittleEndian(|data|, 2);
      U16RoundTrip(|data|);
      assert torn[6] == OpByte(r.op);
    }
  }
}
