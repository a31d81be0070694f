/** The write-ahead log object over a directory of segment files (src/wal.rs). Each method is
    proved to do to the bytes what the record-level operation in WalLog does to the records. */
module Wals {
  import opened Bytes
  import opened Results
  import opened Entries
  import opened Records
  import opened Numbers
  import opened WalLog

  // ---------- bytes and records ----------

  /** Every segment file holds exactly the encoded records listed for it. */
  ghost predicate Stores(crc: Checksum, files: map<nat, ByteString>, records: map<nat, seq<LogRecord>>) {
    && files.Keys == records.Keys
    && forall n :: n in records ==> files[n] == EncodeAll(crc, records[n]) && AllAccepted(records[n])
  }

  /** Replaying segments in the given order; the first error ends the replay. */
  function RecoverOrder(crc: Checksum, files: map<nat, ByteString>, order: seq<nat>): Result<seq<Entry>>
    requires forall n :: n in order ==> n in files
  {
    if order == [] then Ok([])
    else
      match RecoverOrder(crc, files, order[..|order| - 1])
      case Ok(es) => Prepend(es, Recover(crc, files[order[|order| - 1]]))
      case Err(e) => Err(e)
  }

  function RecoverFiles(crc: Checksum, files: map<nat, ByteString>): Result<seq<Entry>> {
    RecoverOrder(crc, files, Ascending(files.Keys))
  }

  /** Every listed segment replays to the records listed for it. */
  ghost predicate Replays(crc: Checksum, files: map<nat, ByteString>, records: map<nat, seq<LogRecord>>) {
    && files.Keys == records.Keys
    && forall n :: n in records ==> Recover(crc, files[n]) == Ok(EntriesOf(records[n]))
  }

  lemma {:induction false} RecoverReplaysOrder(
    crc: Checksum, files: map<nat, ByteString>, records: map<nat, seq<LogRecord>>, order: seq<nat>)
    requires Replays(crc, files, records)
    requires forall n :: n in order ==> n in files
    ensures RecoverOrder(crc, files, order) == Ok(EntriesOf(RecordsInOrder(records, order)))
  {
    hide Recover;
    if order != [] {
      var front, n := order[..|order| - 1], order[|order| - 1];
      RecoverReplaysOrder(crc, files, records, front);
      EntriesOfConcat(RecordsInOrder(records, front), records[n]);
    }
  }

  lemma StoredReplays(crc: Checksum, files: map<nat, ByteString>, records: map<nat, seq<LogRecord>>)
    requires Stores(crc, files, records)
    ensures Replays(crc, files, records)
  {
    hide Recover, EncodeAll;
    forall n | n in records ensures Recover(crc, files[n]) == Ok(EntriesOf(records[n])) {
      RecoverRoundTrip(crc, records[n]);
    }
  }

  /** Recovery of stored segments returns every record in segment order: no record spans two files. */
  lemma RecoverStored(crc: Checksum, files: map<nat, ByteString>, records: map<nat, seq<LogRecord>>)
    requires Stores(crc, files, records)
    ensures RecoverFiles(crc, files) == Ok(EntriesOf(DiskRecords(records)))
  {
    hide Recover, EncodeAll, Ascending;
    StoredReplays(crc, files, records);
    RecoverReplaysOrder(crc, files, records, Ascending(files.Keys));
  }

  /** A segment damaged after its first records, with a checksum that does not match: recovery yields
      those records and still replays the later segments. */
  lemma DamagedLog(crc: Checksum, files: map<nat, ByteString>, records: map<nat, seq<LogRecord>>,
                   n: nat, op: OpType, data: ByteString, sum: U32, rest: ByteString)
    requires Stores(crc, files, records) && n in records
    requires |data| <= 0xFFFF && sum != crc(Checked(OpByte(op), data))
    ensures var damaged := files[n] + LittleEndian(sum, 4) + Checked(OpByte(op), data) + rest;
            RecoverFiles(crc, files[n := damaged]) == Ok(EntriesOf(DiskRecords(records)))
  {
    hide Recover, EncodeAll, Ascending, Checked;
    var damaged := files[n] + LittleEndian(sum, 4) + Checked(OpByte(op), data) + rest;
    StoredReplays(crc, files, records);
    DamagedRecord(crc, records[n], op, data, sum, rest);
    RecoverReplaysOrder(crc, files[n := damaged], records, Ascending(files.Keys));
  }

  /** Recovery fails exactly when some segment fails, with the error of the first that does. */
  lemma {:induction false} RecoverFirstError(
    crc: Checksum, files: map<nat, ByteString>, order: seq<nat>, e: Error)
    requires forall n :: n in order ==> n in files
    ensures RecoverOrder(crc, files, order) == Err(e) <==> exists i: nat :: FirstError(crc, files, order, i, e)
  {
    hide Recover;
    if order != [] {
      var n := |order| - 1;
      var front := order[..n];
      assert forall i: nat :: FirstError(crc, files, front, i, e) ==> FirstError(crc, files, order, i, e);
      assert forall i: nat :: i < n && FirstError(crc, files, order, i, e) ==> FirstError(crc, files, front, i, e);
      RecoverFirstError(crc, files, front, e);
      NoErrors(crc, files, front);
      assert FirstError(crc, files, order, n, e) <==>
             Recover(crc, files[order[n]]) == Err(e) && forall m :: m in front ==> Recover(crc, files[m]).Ok?;
    }
  }

  ghost predicate FirstError(crc: Checksum, files: map<nat, ByteString>, order: seq<nat>, i: nat, e: Error)
    requires forall n :: n in order ==> n in files
  {
    && i < |order| && Recover(crc, files[order[i]]) == Err(e)
    && forall m :: m in order[..i] ==> Recover(crc, files[m]).Ok?
  }

  lemma {:induction false} NoErrors(crc: Checksum, files: map<nat, ByteString>, order: seq<nat>)
    requires forall n :: n in order ==> n in files
    ensures RecoverOrder(crc, files, order).Ok? <==> forall n :: n in order ==> Recover(crc, files[n]).Ok?
  {
    hide Recover;
    if order != [] {
      NoErrors(crc, files, order[..|order| - 1]);
      assert order == order[..|order| - 1] + [order[|order| - 1]];
    }
  }

  /** A crash that cuts the last segment at any byte: recovery yields the earlier segments and the
      whole records before the cut, or fails with an I/O error if the cut is inside a record body. */
  lemma TornLog(crc: Checksum, files: map<nat, ByteString>, records: map<nat, seq<LogRecord>>,
                last: nat, n: nat, cut: nat)
    requires Stores(crc, files, records)
    requires last in records && forall m :: m in records ==> m <= last
    requires CutAfter(crc, records[last], n, cut)
    ensures RecoverFiles(crc, files[last := files[last][..cut]]) ==
            if cut - |EncodeAll(crc, records[last][..n])| < RECORD_HEADER
            then Ok(EntriesOf(DiskRecords(records - {last}) + records[last][..n]))
            else Err(Io)
  {
    var torn := files[last := files[last][..cut]];
    var below := records - {last};
    var order := Ascending(below.Keys);
    AscendingAppend(below.Keys, last);
    assert torn.Keys == below.Keys + {last};
    assert (order + [last])[..|order|] == order;
    assert Stores(crc, files - {last}, below);
    StoredReplays(crc, files - {last}, below);
    RecoverReplaysOrder(crc, files - {last}, below, order);
    RecoverOrderCongruence(crc, torn, files - {last}, order);
    TornTail(crc, records[last], n, cut);
    EntriesOfConcat(DiskRecords(below), records[last][..n]);
  }

  lemma {:induction false} RecoverOrderCongruence(
    crc: Checksum, a: map<nat, ByteString>, b: map<nat, ByteString>, order: seq<nat>)
    requires forall n :: n in order ==> n in a && n in b && a[n] == b[n]
    ensures RecoverOrder(crc, a, order) == RecoverOrder(crc, b, order)
  {
    if order != [] {
      RecoverOrderCongruence(crc, a, b, order[..|order| - 1]);
    }
  }

  lemma {:induction false} EncodedSize(crc: Checksum, rs: seq<LogRecord>)
    ensures |EncodeAll(crc, rs)| == SizeOf(rs)
  {
    if rs != [] {
      var n := |rs| - 1;
      EncodedSize(crc, rs[..n]);
      assert rs == rs[..n] + [rs[n]];
      EncodeAllConcat(crc, rs[..n], [rs[n]]);
      EncodeAllSingle(crc, rs[n]);
    }
  }

  /** Opening a segment file, there or not, stores the records of that number. */
  lemma StoresOpened(crc: Checksum, files: map<nat, ByteString>, records: map<nat, seq<LogRecord>>, n: nat)
    requires Stores(crc, files, records)
    ensures Stores(crc, files[n := if n in files then files[n] else []], records[n := FileOf(records, n)])
  {
    hide EncodeAll;
    EncodeAllEmpty(crc);
  }

  // ---------- objects ----------

  /** The directory of segment files, by number. It outlives the log object. */
  class Directory {
    var files: map<nat, ByteString>

    constructor ()
      ensures files == map[]
    {
      files := map[];
    }

    /** The largest segment number found, in whatever order the directory is listed. */
    method FindLatestSegmentNumber() returns (number: nat)
      ensures number == Latest(files.Keys)
      ensures if files.Keys == {} then number == 0 else number in files.Keys && forall n :: n in files ==> n <= number
    {
      var left := files.Keys;
      number := 0;
      while left != {}
        invariant left <= files.Keys
        invariant forall n :: n in files && n !in left ==> n <= number
        invariant number == 0 || number in files.Keys
        decreases left
      {
        var n :| n in left;
        if n > number {
          number := n;
        }
        left := left - {n};
      }
      if files.Keys != {} {
        assert IsLargest(Largest(files.Keys), files.Keys);
      }
    }
  }

  class WalSegment {
    const dir: Directory
    const number: nat
    var buffer: ByteString
    const bufferCapacity: nat
    var bytesWritten: nat

    /** Opens the file for appending, creating it if it is not there. */
    constructor (dir: Directory, number: nat, bufferCapacity: nat)
      modifies dir
      ensures this.dir == dir && this.number == number && this.bufferCapacity == bufferCapacity
      ensures buffer == [] && bytesWritten == 0
      ensures dir.files == old(dir.files)[number := if number in old(dir.files) then old(dir.files)[number] else []]
    {
      this.dir, this.number, this.bufferCapacity := dir, number, bufferCapacity;
      buffer, bytesWritten := [], 0;
      new;
      if number !in dir.files {
        dir.files := dir.files[number := []];
      }
    }

    predicate ShouldRotate(sizeLimit: nat)
      reads this
    {
      bytesWritten >= sizeLimit
    }

    method Append(record: ByteString)
      requires number in dir.files
      modifies this, dir
      ensures bytesWritten == old(bytesWritten) + |record|
      ensures |old(buffer) + record| < bufferCapacity ==>
                buffer == old(buffer) + record && dir.files == old(dir.files)
      ensures |old(buffer) + record| >= bufferCapacity ==>
                buffer == [] && dir.files == old(dir.files)[number := old(dir.files)[number] + (old(buffer) + record)]
    {
      buffer := buffer + record;
      bytesWritten := bytesWritten + |record|;
      if |buffer| >= bufferCapacity {
        Flush();
      }
    }

    method Flush()
      requires number in dir.files
      modifies this`buffer, dir
      ensures buffer == []
      ensures dir.files == old(dir.files)[number := old(dir.files)[number] + old(buffer)]
    {
      if buffer != [] {
        dir.files := dir.files[number := dir.files[number] + buffer];
        buffer := [];
      } else {
        assert dir.files[number] + [] == dir.files[number];
      }
    }
  }

  class Wal {
    const crc: Checksum
    const dir: Directory
    var current: WalSegment
    var segmentNumber: nat
    var segmentSizeLimit: nat
    var lastFlushedSegment: nat

    /** The records behind the bytes. */
    ghost var log: LogState

    ghost predicate Valid()
      reads this, dir, current
    {
      && current.dir == dir
      && current.number == segmentNumber == log.active
      && segmentNumber in dir.files
      && Stores(crc, dir.files, log.files)
      && current.buffer == EncodeAll(crc, log.pending) && AllAccepted(log.pending)
      && current.bytesWritten == log.bytesWritten
      && current.bufferCapacity == log.capacity
      && segmentSizeLimit == log.limit
      && lastFlushedSegment == log.lastFlushed
    }

    /** Opens a log over a directory that earlier logs wrote: a new segment after the last one. */
    constructor (crc: Checksum, dir: Directory, bufferSize: nat, ghost records: map<nat, seq<LogRecord>>)
      requires Stores(crc, dir.files, records)
      modifies dir
      ensures Valid() && this.dir == dir && this.crc == crc && fresh(current)
      ensures log == OpenLog(records, bufferSize)
      ensures current.buffer == [] && current.bytesWritten == 0 && segmentSizeLimit == 104857600
      ensures lastFlushedSegment == 0
    {
      var latest := dir.FindLatestSegmentNumber();
      var segment := new WalSegment(dir, latest + 1, bufferSize);
      this.crc, this.dir, current := crc, dir, segment;
      segmentNumber := latest + 1;
      segmentSizeLimit := DEFAULT_SEGMENT_SIZE;
      lastFlushedSegment := 0;
      log := OpenLog(records, bufferSize);
      new;
      assert latest + 1 !in records.Keys;
    }

    method SetSegmentSizeLimit(limit: nat)
      requires Valid()
      modifies this`segmentSizeLimit, this`log
      ensures Valid() && log == old(log).(limit := limit)
    {
      segmentSizeLimit := limit;
      log := log.(limit := limit);
    }

    method AppendOperation(op: OpType, entry: Entry) returns (r: Result<()>)
      requires Valid()
      modifies this, dir, current
      ensures Valid() && (current == old(current) || fresh(current))
      ensures log == WalLog.Append(old(log), LogRecord(op, entry))
      ensures r == if Accepted(entry) then Ok(()) else Err(InvalidFormat)
    {
      hide EncodeAll, RecordBytes, BeforeAppend, WalLog.Flush, Stores, Valid, Accepted;
      EncodeAcceptsIff(crc, LogRecord(op, entry));
      RotateIfFull();
      var encoded := EncodeRecord(crc, op, entry);
      if encoded.Err? {
        return Err(encoded.error);
      }
      AppendRecord(LogRecord(op, entry), encoded.value);
      return Ok(());
    }

    /** Starts a new segment before a record when the active one has reached the limit. */
    method RotateIfFull()
      requires Valid()
      modifies this, dir, current
      ensures Valid() && (current == old(current) || fresh(current))
      ensures log == BeforeAppend(old(log))
    {
      hide EncodeAll, Rotate, Stores;
      if current.ShouldRotate(segmentSizeLimit) {
        RotateSegment();
      }
    }

    method AppendRecord(ghost record: LogRecord, bytes: ByteString)
      requires Valid()
      requires Accepted(record.entry) && bytes == RecordBytes(crc, record)
      modifies this`log, dir, current
      ensures Valid()
      ensures var w := old(log).(pending := old(log).pending + [record],
                                 bytesWritten := old(log).bytesWritten + RecordSize(record));
              log == if SizeOf(w.pending) >= w.capacity then WalLog.Flush(w) else w
    {
      hide EncodeAll;
      EncodeAllEmpty(crc);
      EncodeAllConcat(crc, log.pending, [record]);
      EncodeAllSingle(crc, record);
      EncodedSize(crc, log.pending + [record]);
      current.Append(bytes);
      log := log.(pending := log.pending + [record], bytesWritten := log.bytesWritten + RecordSize(record));
      if SizeOf(log.pending) >= log.capacity {
        EncodeAllConcat(crc, log.files[log.active], log.pending);
        log := WalLog.Flush(log);
      }
    }

    method RotateSegment()
      requires Valid()
      modifies this, dir, current
      ensures Valid() && fresh(current)
      ensures log == WalLog.Rotate(old(log))
    {
      hide DiskRecords, EncodeAll, Stores;
      EncodeAllEmpty(crc);
      Flush();
      StoresOpened(crc, dir.files, log.files, log.active + 1);
      segmentNumber := segmentNumber + 1;
      current := new WalSegment(dir, segmentNumber, current.bufferCapacity);
      log := WalLog.Rotate(old(log));
    }

    method Flush()
      requires Valid()
      modifies this`log, dir, current
      ensures Valid()
      ensures log == WalLog.Flush(old(log))
    {
      hide EncodeAll;
      EncodeAllEmpty(crc);
      EncodeAllConcat(crc, log.files[log.active], log.pending);
      assert dir.files[segmentNumber] + [] == dir.files[segmentNumber];
      current.Flush();
      log := WalLog.Flush(log);
    }

    method MarkFlushed()
      requires Valid()
      modifies this`lastFlushedSegment, this`log
      ensures Valid()
      ensures log == WalLog.MarkFlushed(old(log))
    {
      lastFlushedSegment := segmentNumber;
      log := WalLog.MarkFlushed(log);
    }

    /** Deletes, in whatever order the directory is listed, the segments below the safe point. */
    method CleanupOldSegments(minReplicaSegment: nat)
      requires Valid() && lastFlushedSegment <= segmentNumber
      modifies dir, this`log
      ensures Valid()
      ensures log == WalLog.Cleanup(old(log), minReplicaSegment)
    {
      hide EncodeAll;
      var safeToDelete := lastFlushedSegment;
      if minReplicaSegment > 0 && minReplicaSegment < lastFlushedSegment {
        safeToDelete := minReplicaSegment;
      }
      if safeToDelete != 0 {
        var left := dir.files.Keys;
        while left != {}
          invariant log == old(log)
          invariant left <= dir.files.Keys <= old(dir.files).Keys
          invariant forall n :: n in left || n >= safeToDelete ==> (n in dir.files <==> n in old(dir.files))
          invariant forall n :: n !in left && n < safeToDelete ==> n !in dir.files
          invariant forall n :: n in dir.files ==> dir.files[n] == old(dir.files)[n]
          decreases left
        {
          var n :| n in left;
          left := left - {n};
          if n < safeToDelete {
            dir.files := dir.files - {n};
          }
        }
      }
      CleanupExact(log, minReplicaSegment);
      log := WalLog.Cleanup(log, minReplicaSegment);
    }

    /** Replays every segment of a directory in number order. */
    static method RecoverDirectory(crc: Checksum, dir: Directory) returns (r: Result<seq<Entry>>)
      ensures r == RecoverFiles(crc, dir.files)
    {
      var order := Ascending(dir.files.Keys);
      var entries: seq<Entry> := [];
      var i := 0;
      while i < |order|
        invariant i <= |order|
        invariant RecoverOrder(crc, dir.files, order[..i]) == Ok(entries)
      {
        var segment := RecoverSegment(crc, dir.files[order[i]]);
        assert order[..i + 1][..i] == order[..i];
        if segment.Err? {
          RecoverFails(crc, dir.files, order, i + 1);
          return segment;
        }
        entries := entries + segment.value;
        i := i + 1;
      }
      assert order[..i] == order;
      return Ok(entries);
    }
  }

  lemma {:induction false} RecoverFails(crc: Checksum, files: map<nat, ByteString>, order: seq<nat>, i: nat)
    requires forall n :: n in order ==> n in files
    requires i <= |order| && RecoverOrder(crc, files, order[..i]).Err?
    ensures RecoverOrder(crc, files, order) == RecoverOrder(crc, files, order[..i])
    decreases |order|
  {
    if i < |order| {
      var front := order[..|order| - 1];
      assert front[..i] == order[..i];
      RecoverFails(crc, files, front, i);
    } else {
      assert order[..i] == order;
    }
  }

  // ---------- the whole log, written and recovered ----------

  /** Appends records, flushes, and replays the directory: every accepted entry comes back in
      order, for any segment limit, any buffer capacity and wherever rotation falls. */
  method WriteThenRecover(crc: Checksum, records: seq<LogRecord>, limit: nat, capacity: nat)
    returns (r: Result<seq<Entry>>)
    requires AllAccepted(records)
    ensures r == Ok(EntriesOf(records))
  {
    hide EncodeAll, DiskRecords, EntriesOf, Run, Step, WalLog.Append, WalLog.Flush;
    var dir := new Directory();
    var wal := new Wal(crc, dir, capacity, map[]);
    wal.SetSegmentSizeLimit(limit);
    ghost var ops := AppendOps(limit, []);
    FreshRun(capacity, limit);
    for i := 0 to |records|
      invariant wal.Valid() && wal.dir == dir && wal.crc == crc
      invariant fresh(wal) && fresh(wal.dir) && fresh(wal.current)
      invariant Run(capacity, AppendOps(limit, records[..i])) == (wal.log, records[..i])
    {
      var appended := wal.AppendOperation(records[i].op, records[i].entry);
      assert records[..i + 1] == records[..i] + [records[i]];
      AppendOpsStep(capacity, limit, records[..i], records[i]);
    }
    wal.Flush();
    assert records[..|records|] == records;
    FlushedRun(capacity, limit, records);
    RecoverStored(crc, dir.files, wal.log.files);
    r := Wal.RecoverDirectory(crc, dir);
  }

  /** Setting the limit and appending the records. */
  ghost function AppendOps(limit: nat, records: seq<LogRecord>): seq<LogOp> {
    [DoSetLimit(limit)] + seq(|records|, i requires 0 <= i < |records| => DoAppend(records[i]))
  }

  lemma FreshRun(capacity: nat, limit: nat)
    ensures Run(capacity, AppendOps(limit, [])) == (OpenLog(map[], capacity).(limit := limit), [])
  {
    assert AppendOps(limit, []) == [] + [DoSetLimit(limit)];
    RunStep(capacity, [], DoSetLimit(limit));
  }

  lemma AppendOpsStep(capacity: nat, limit: nat, records: seq<LogRecord>, r: LogRecord)
    requires Accepted(r.entry)
    ensures var (s, history) := Run(capacity, AppendOps(limit, records));
            Run(capacity, AppendOps(limit, records + [r])) == (WalLog.Append(s, r), history + [r])
  {
    assert AppendOps(limit, records + [r]) == AppendOps(limit, records) + [DoAppend(r)];
    RunStep(capacity, AppendOps(limit, records), DoAppend(r));
  }

  /** After the appends and a flush, the segment files hold the whole history. */
  lemma FlushedRun(capacity: nat, limit: nat, records: seq<LogRecord>)
    ensures var (s, history) := Run(capacity, AppendOps(limit, records));
            DiskRecords(WalLog.Flush(s).files) == history
  {
    var ops := AppendOps(limit, records);
    NothingDropped(capacity, ops);
    RetentionInvariant(capacity, ops);
    FlushKeeps(Run(capacity, ops).0, Run(capacity, ops).1);
  }
}
