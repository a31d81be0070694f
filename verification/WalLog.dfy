/** The segmented log seen as records (src/wal.rs): which records each segment file holds, which
    are still buffered, and what every operation does to them. */
module WalLog {
  import opened Bytes
  import opened Records
  import opened Numbers

  const DEFAULT_SEGMENT_SIZE: nat := 100 * 1024 * 1024

  datatype LogState = LogState(
    files: map<nat, seq<LogRecord>>,  // records on disk, by segment number
    pending: seq<LogRecord>,          // records in the active segment's buffer
    active: nat,
    bytesWritten: nat,
    limit: nat,
    capacity: nat,
    lastFlushed: nat)

  function RecordSize(r: LogRecord): nat {
    RECORD_HEADER + |r.entry.key| + |r.entry.value| + 14
  }

  function SizeOf(rs: seq<LogRecord>): nat {
    if rs == [] then 0 else SizeOf(rs[..|rs| - 1]) + RecordSize(rs[|rs| - 1])
  }

  // ---------- operations ----------

  /** A new log over an existing directory starts the segment after the last one found. */
  function OpenLog(files: map<nat, seq<LogRecord>>, capacity: nat): LogState {
    var number := Latest(files.Keys) + 1;
    LogState(files[number := []], [], number, 0, DEFAULT_SEGMENT_SIZE, capacity, 0)
  }

  function FileOf(files: map<nat, seq<LogRecord>>, n: nat): seq<LogRecord> {
    if n in files then files[n] else []
  }

  function Flush(s: LogState): LogState {
    if s.pending == [] then s
    else s.(files := s.files[s.active := FileOf(s.files, s.active) + s.pending], pending := [])
  }

  function Rotate(s: LogState): LogState {
    var f := Flush(s);
    f.(files := f.files[f.active + 1 := FileOf(f.files, f.active + 1)], active := f.active + 1, bytesWritten := 0)
  }

  /** Rotation is decided before the record is encoded, so a rejected record may still rotate. */
  function BeforeAppend(s: LogState): LogState {
    if s.bytesWritten >= s.limit then Rotate(s) else s
  }

  function Append(s: LogState, r: LogRecord): LogState {
    var b := BeforeAppend(s);
    if !Accepted(r.entry) then b
    else
      var w := b.(pending := b.pending + [r], bytesWritten := b.bytesWritten + RecordSize(r));
      if SizeOf(w.pending) >= w.capacity then Flush(w) else w
  }

  function MarkFlushed(s: LogState): LogState {
    s.(lastFlushed := s.active)
  }

  /** The lowest segment that must stay, given the replica position (0 for no replica). */
  function SafeToDelete(s: LogState, minReplica: nat): nat {
    if minReplica > 0 then (if s.lastFlushed < minReplica then s.lastFlushed else minReplica)
    else s.lastFlushed
  }

  function Cleanup(s: LogState, minReplica: nat): LogState {
    var safe := SafeToDelete(s, minReplica);
    s.(files := map n | n in s.files && n >= safe :: s.files[n])
  }

  // ---------- the record sequence on disk ----------

  function RecordsInOrder(files: map<nat, seq<LogRecord>>, order: seq<nat>): seq<LogRecord> {
    if order == [] then []
    else RecordsInOrder(files, order[..|order| - 1]) + FileOf(files, order[|order| - 1])
  }

  /** All records on disk in segment order: what recovery replays. */
  function DiskRecords(files: map<nat, seq<LogRecord>>): seq<LogRecord> {
    RecordsInOrder(files, Ascending(files.Keys))
  }

  /** Everything the log still holds, on disk and buffered. */
  function Retained(s: LogState): seq<LogRecord> {
    DiskRecords(s.files) + s.pending
  }

  lemma {:induction false} RecordsInOrderCongruence(a: map<nat, seq<LogRecord>>, b: map<nat, seq<LogRecord>>,
                                                    order: seq<nat>)
    requires forall n :: n in order ==> FileOf(a, n) == FileOf(b, n)
    ensures RecordsInOrder(a, order) == RecordsInOrder(b, order)
  {
    if order != [] {
      RecordsInOrderCongruence(a, b, order[..|order| - 1]);
    }
  }

  lemma {:induction false} RecordsInOrderConcat(files: map<nat, seq<LogRecord>>, a: seq<nat>, b: seq<nat>)
    ensures RecordsInOrder(files, a + b) == RecordsInOrder(files, a) + RecordsInOrder(files, b)
  {
    if b == [] {
      assert a + b == a;
    } else {
      var n := |b| - 1;
      assert (a + b)[..|a| + n] == a + b[..n];
      RecordsInOrderConcat(files, a, b[..n]);
    }
  }

  /** The file with the largest number comes last on disk. */
  lemma DiskRecordsLast(files: map<nat, seq<LogRecord>>, n: nat)
    requires forall m :: m in files ==> m <= n
    ensures DiskRecords(files) == DiskRecords(files - {n}) + FileOf(files, n)
  {
    var below := files - {n};
    if n in files {
      AscendingAppend(below.Keys, n);
      assert files.Keys == below.Keys + {n};
      var order := Ascending(below.Keys);
      assert (order + [n])[..|order|] == order;
      RecordsInOrderCongruence(files, below, order);
    } else {
      assert below == files;
    }
  }

  lemma DiskRecordsUpdate(files: map<nat, seq<LogRecord>>, n: nat, rs: seq<LogRecord>)
    requires forall m :: m in files ==> m <= n
    ensures DiskRecords(files[n := rs]) == DiskRecords(files - {n}) + rs
  {
    var updated := files[n := rs];
    assert updated - {n} == files - {n};
    DiskRecordsLast(updated, n);
    assert FileOf(updated, n) == rs;
  }

  lemma DiskRecordsExtend(files: map<nat, seq<LogRecord>>, n: nat, rs: seq<LogRecord>)
    requires forall m :: m in files ==> m <= n
    ensures DiskRecords(files[n := FileOf(files, n) + rs]) == DiskRecords(files) + rs
  {
    DiskRecordsLast(files, n);
    DiskRecordsUpdate(files, n, FileOf(files, n) + rs);
    Regroup(DiskRecords(files - {n}), FileOf(files, n), rs);
  }

  lemma DiskRecordsFresh(files: map<nat, seq<LogRecord>>, n: nat)
    requires forall m :: m in files ==> m < n
    ensures DiskRecords(files[n := []]) == DiskRecords(files)
  {
    DiskRecordsUpdate(files, n, []);
    assert files - {n} == files;
    assert DiskRecords(files) + [] == DiskRecords(files);
  }

  /** Deleting the segments below a number leaves a suffix of the records. */
  lemma DiskRecordsSplit(files: map<nat, seq<LogRecord>>, bound: nat)
    ensures var low := map n | n in files && n < bound :: files[n];
            var high := map n | n in files && n >= bound :: files[n];
            DiskRecords(files) == DiskRecords(low) + DiskRecords(high)
  {
    var low := map n | n in files && n < bound :: files[n];
    var high := map n | n in files && n >= bound :: files[n];
    AscendingSplit(files.Keys, bound);
    assert low.Keys == Below(files.Keys, bound);
    assert high.Keys == AtLeast(files.Keys, bound);
    RecordsInOrderConcat(files, Ascending(low.Keys), Ascending(high.Keys));
    RecordsInOrderCongruence(files, low, Ascending(low.Keys));
    RecordsInOrderCongruence(files, high, Ascending(high.Keys));
  }

  lemma DiskRecordsEmpty()
    ensures DiskRecords(map[]) == []
  {}

  // ---------- what every operation keeps ----------

  /** The segment files are numbered without a gap, ending at the active one. */
  ghost predicate Contiguous(s: LogState) {
    s.active in s.files && NoGaps(s.files.Keys, s.active)
  }

  ghost predicate IsSuffix<T>(part: seq<T>, whole: seq<T>) {
    |part| <= |whole| && whole[|whole| - |part|..] == part
  }

  ghost predicate LogInv(s: LogState, history: seq<LogRecord>) {
    && Contiguous(s)
    && s.lastFlushed <= s.active
    && IsSuffix(Retained(s), history)
    && AllAccepted(history)
  }

  lemma LatestIsActive(s: LogState)
    requires Contiguous(s)
    ensures Latest(s.files.Keys) == s.active
  {
    assert s.files.Keys != {};
    assert IsLargest(Largest(s.files.Keys), s.files.Keys);
  }

  lemma FlushKeeps(s: LogState, history: seq<LogRecord>)
    requires LogInv(s, history)
    ensures LogInv(Flush(s), history) && Retained(Flush(s)) == Retained(s)
    ensures DiskRecords(Flush(s).files) == Retained(s)
  {
    hide DiskRecords;
    if s.pending == [] {
      assert Retained(s) == DiskRecords(s.files);
    } else {
      DiskRecordsExtend(s.files, s.active, s.pending);
      assert Flush(s).files.Keys == s.files.Keys;
      assert Retained(Flush(s)) == DiskRecords(Flush(s).files);
    }
  }

  lemma NoGapsNext(files: map<nat, seq<LogRecord>>, last: nat, rs: seq<LogRecord>)
    requires NoGaps(files.Keys, last)
    ensures NoGaps(files[last + 1 := rs].Keys, last + 1)
  {}

  lemma RotateKeeps(s: LogState, history: seq<LogRecord>)
    requires LogInv(s, history)
    ensures LogInv(Rotate(s), history) && Retained(Rotate(s)) == Retained(s)
    ensures Rotate(s).files[Rotate(s).active] == [] && Rotate(s).pending == []
  {
    hide DiskRecords;
    FlushKeeps(s, history);
    var f, r := Flush(s), Rotate(s);
    DiskRecordsFresh(f.files, f.active + 1);
    NoGapsNext(f.files, f.active, []);
    assert f.active + 1 !in f.files;
    assert r.files == f.files[f.active + 1 := []];
    assert Retained(r) == DiskRecords(r.files) + [] == DiskRecords(r.files);
  }

  lemma AppendKeeps(s: LogState, history: seq<LogRecord>, r: LogRecord)
    requires LogInv(s, history)
    ensures var history' := if Accepted(r.entry) then history + [r] else history;
            && LogInv(Append(s, r), history')
            && Retained(Append(s, r)) == if Accepted(r.entry) then Retained(s) + [r] else Retained(s)
  {
    hide DiskRecords;
    var b := BeforeAppend(s);
    if s.bytesWritten >= s.limit {
      RotateKeeps(s, history);
    }
    if Accepted(r.entry) {
      var w := b.(pending := b.pending + [r], bytesWritten := b.bytesWritten + RecordSize(r));
      assert Retained(w) == Retained(b) + [r];
      SuffixGrows(Retained(b), history, r);
      assert LogInv(w, history + [r]);
      FlushKeeps(w, history + [r]);
    }
  }

  /** An append starts a new segment exactly when the active one has reached the limit, and writes the
      buffer out exactly when the record fills it. */
  lemma AppendExactly(s: LogState, r: LogRecord)
    ensures Append(s, r).active == s.active + (if s.bytesWritten >= s.limit then 1 else 0)
    ensures var pending := (if s.bytesWritten >= s.limit then [] else s.pending) + [r];
            Accepted(r.entry) ==> Append(s, r).pending == if SizeOf(pending) >= s.capacity then [] else pending
  {
    hide SizeOf;
  }

  lemma SuffixGrows<T>(part: seq<T>, whole: seq<T>, x: T)
    requires IsSuffix(part, whole)
    ensures IsSuffix(part + [x], whole + [x])
  {}

  lemma SuffixOfSuffix<T>(front: seq<T>, part: seq<T>, whole: seq<T>)
    requires IsSuffix(front + part, whole)
    ensures IsSuffix(part, whole)
  {
    assert part == (front + part)[|front|..];
  }

  /** Cleanup deletes exactly the segments before the flush mark that no replica needs, and never the
      active one. */
  lemma CleanupExact(s: LogState, minReplica: nat)
    requires s.active in s.files && s.lastFlushed <= s.active
    ensures var c := Cleanup(s, minReplica);
            var safe := SafeToDelete(s, minReplica);
            && safe <= s.active
            && (forall n :: n in c.files <==>
                            n in s.files && (n >= s.lastFlushed || (minReplica > 0 && n >= minReplica)))
            && (forall n :: n in c.files ==> c.files[n] == s.files[n])
            && c.active in c.files
  {}

  /** What cleanup leaves is still gap-free, and still a suffix of the history. */
  lemma CleanupKeeps(s: LogState, history: seq<LogRecord>, minReplica: nat)
    requires LogInv(s, history)
    ensures LogInv(Cleanup(s, minReplica), history)
  {
    var c := Cleanup(s, minReplica);
    var safe := SafeToDelete(s, minReplica);
    CleanupExact(s, minReplica);
    CleanupSuffix(s, history, safe);
    assert NoGaps(c.files.Keys, c.active);
  }

  lemma CleanupSuffix(s: LogState, history: seq<LogRecord>, safe: nat)
    requires IsSuffix(Retained(s), history)
    ensures IsSuffix(DiskRecords(map n | n in s.files && n >= safe :: s.files[n]) + s.pending, history)
  {
    var low := map n | n in s.files && n < safe :: s.files[n];
    var high := map n | n in s.files && n >= safe :: s.files[n];
    DiskRecordsSplit(s.files, safe);
    Regroup(DiskRecords(low), DiskRecords(high), s.pending);
    SuffixOfSuffix(DiskRecords(low), DiskRecords(high) + s.pending, history);
  }

  /** After the engine's own cleanup (mark, then no replica) only the active segment is left. */
  lemma CleanupToActive(s: LogState, history: seq<LogRecord>)
    requires LogInv(s, history)
    ensures var c := Cleanup(MarkFlushed(s), 0);
            && c.files == map[s.active := s.files[s.active]]
            && Retained(c) == s.files[s.active] + s.pending
  {
    var c := Cleanup(MarkFlushed(s), 0);
    assert c.files == map[s.active := s.files[s.active]];
    OneSegment(s.active, s.files[s.active]);
  }

  lemma OneSegment(n: nat, rs: seq<LogRecord>)
    ensures DiskRecords(map[n := rs]) == rs
  {
    hide DiskRecords;
    var none: map<nat, seq<LogRecord>> := map[];
    DiskRecordsUpdate(none, n, rs);
    assert none - {n} == none && none[n := rs] == map[n := rs];
    DiskRecordsEmpty();
    assert [] + rs == rs;
  }

  lemma OpenKeeps(files: map<nat, seq<LogRecord>>, capacity: nat, history: seq<LogRecord>)
    requires NoGaps(files.Keys, Latest(files.Keys))
    requires IsSuffix(DiskRecords(files), history) && AllAccepted(history)
    ensures LogInv(OpenLog(files, capacity), history)
    ensures Retained(OpenLog(files, capacity)) == DiskRecords(files)
  {
    hide DiskRecords;
    var last := Latest(files.Keys);
    DiskRecordsFresh(files, last + 1);
    NoGapsNext(files, last, []);
    assert DiskRecords(files) + [] == DiskRecords(files);
  }

  // ---------- runs ----------

  datatype LogOp =
    | DoAppend(record: LogRecord)
    | DoFlush
    | DoMark
    | DoCleanup(minReplica: nat)
    | DoSetLimit(limit: nat)
    | DoReopen(clean: bool, capacity: nat)  // a clean close flushes; a crash loses the buffer

  function Step(s: LogState, op: LogOp): LogState {
    match op
    case DoAppend(r) => Append(s, r)
    case DoFlush => Flush(s)
    case DoMark => MarkFlushed(s)
    case DoCleanup(r) => Cleanup(s, r)
    case DoSetLimit(l) => s.(limit := l)
    case DoReopen(clean, capacity) => OpenLog((if clean then Flush(s) else s).files, capacity)
  }

  /** The accepted records in order, less those a crash took from the buffer. */
  function HistoryStep(s: LogState, history: seq<LogRecord>, op: LogOp): seq<LogRecord> {
    match op
    case DoAppend(r) => if Accepted(r.entry) then history + [r] else history
    case DoReopen(clean, _) =>
      if clean || |s.pending| > |history| then history else history[..|history| - |s.pending|]
    case _ => history
  }

  function Run(capacity: nat, ops: seq<LogOp>): (LogState, seq<LogRecord>) {
    if ops == [] then (OpenLog(map[], capacity), [])
    else
      var (s, history) := Run(capacity, ops[..|ops| - 1]);
      (Step(s, ops[|ops| - 1]), HistoryStep(s, history, ops[|ops| - 1]))
  }

  lemma RunStep(capacity: nat, ops: seq<LogOp>, op: LogOp)
    ensures var (s, history) := Run(capacity, ops);
            Run(capacity, ops + [op]) == (Step(s, op), HistoryStep(s, history, op))
  {
    assert (ops + [op])[..|ops|] == ops;
  }

  lemma ReopenKeeps(s: LogState, history: seq<LogRecord>, clean: bool, capacity: nat)
    requires LogInv(s, history)
    ensures LogInv(Step(s, DoReopen(clean, capacity)), HistoryStep(s, history, DoReopen(clean, capacity)))
  {
    hide DiskRecords;
    FlushKeeps(s, history);
    var closed := if clean then Flush(s) else s;
    var kept := HistoryStep(s, history, DoReopen(clean, capacity));
    assert IsSuffix(DiskRecords(closed.files), kept);
    LatestIsActive(closed);
    OpenKeeps(closed.files, capacity, kept);
  }

  /** Over every run from an empty directory: segments are contiguous and end at the active one,
      the flush mark never passes it, and the log holds a contiguous suffix of the history. */
  lemma {:induction false} RetentionInvariant(capacity: nat, ops: seq<LogOp>)
    ensures LogInv(Run(capacity, ops).0, Run(capacity, ops).1)
  {
    hide DiskRecords;
    if ops == [] {
      DiskRecordsEmpty();
      OpenKeeps(map[], capacity, []);
    } else {
      var op := ops[|ops| - 1];
      RetentionInvariant(capacity, ops[..|ops| - 1]);
      var (s, history) := Run(capacity, ops[..|ops| - 1]);
      match op {
        case DoAppend(r) => AppendKeeps(s, history, r);
        case DoFlush => FlushKeeps(s, history);
        case DoMark => assert Retained(MarkFlushed(s)) == Retained(s);
        case DoCleanup(r) => CleanupKeeps(s, history, r);
        case DoSetLimit(l) => assert Retained(s.(limit := l)) == Retained(s);
        case DoReopen(clean, c) => ReopenKeeps(s, history, clean, c);
      }
    }
  }

  /** Without cleanup or crash nothing is ever dropped: the log holds the whole history. */
  lemma {:induction false} NothingDropped(capacity: nat, ops: seq<LogOp>)
    requires forall op :: op in ops ==> !op.DoCleanup? && !(op.DoReopen? && !op.clean)
    ensures Retained(Run(capacity, ops).0) == Run(capacity, ops).1
  {
    hide DiskRecords;
    if ops == [] {
      DiskRecordsEmpty();
      OpenKeeps(map[], capacity, []);
    } else {
      var op := ops[|ops| - 1];
      NothingDropped(capacity, ops[..|ops| - 1]);
      RetentionInvariant(capacity, ops[..|ops| - 1]);
      var (s, history) := Run(capacity, ops[..|ops| - 1]);
      match op {
        case DoAppend(r) => AppendKeeps(s, history, r);
        case DoReopen(_, c) =>
          FlushKeeps(s, history);
          LatestIsActive(Flush(s));
          OpenKeeps(Flush(s).files, c, history);
        case DoFlush => FlushKeeps(s, history);
        case _ =>
      }
    }
  }

  // ---------- segment sizes ----------

  /** A segment that was closed for its size: the limit is reached, and was not before the last record. */
  ghost predicate JustFull(rs: seq<LogRecord>, limit: nat) {
    SizeOf(rs) >= limit && NotFullBefore(rs, limit)
  }

  ghost predicate NotFullBefore(rs: seq<LogRecord>, limit: nat) {
    |rs| > 1 ==> SizeOf(rs[..|rs| - 1]) < limit
  }

  ghost predicate SegmentsFull(s: LogState, first: nat) {
    && first <= s.active && s.lastFlushed <= s.active
    && s.active in s.files && (forall n :: n in s.files ==> n <= s.active)
    && s.bytesWritten == SizeOf(s.files[s.active] + s.pending)
    && NotFullBefore(s.files[s.active] + s.pending, s.limit)
    && forall n :: first <= n < s.active && n in s.files ==> JustFull(s.files[n], s.limit)
  }

  /** A run that neither changes the limit nor reopens the log. */
  function FixedRun(s: LogState, ops: seq<LogOp>): LogState {
    if ops == [] then s else Step(FixedRun(s, ops[..|ops| - 1]), ops[|ops| - 1])
  }

  lemma FlushFull(s: LogState, first: nat)
    requires SegmentsFull(s, first)
    ensures SegmentsFull(Flush(s), first) && Flush(s).limit == s.limit && Flush(s).bytesWritten == s.bytesWritten
    ensures Flush(s).files[s.active] == s.files[s.active] + s.pending && Flush(s).pending == []
  {
    hide JustFull, NotFullBefore, SizeOf;
    var all := s.files[s.active] + s.pending;
    assert all + [] == all;
    assert s.pending == [] ==> all == s.files[s.active];
  }

  lemma RotateFull(s: LogState, first: nat)
    requires SegmentsFull(s, first) && s.bytesWritten >= s.limit
    ensures SegmentsFull(Rotate(s), first) && Rotate(s).limit == s.limit
    ensures Rotate(s).files[Rotate(s).active] + Rotate(s).pending == []
  {
    hide Flush, SizeOf;
    FlushFull(s, first);
    var f, r := Flush(s), Rotate(s);
    assert f.files[f.active] + f.pending == f.files[f.active];
    EmptySize();
    assert f.active + 1 !in f.files;
    assert r.files[r.active] + r.pending == [];
  }

  lemma EmptySize()
    ensures SizeOf([]) == 0
  {}

  lemma AppendFull(s: LogState, first: nat, r: LogRecord)
    requires SegmentsFull(s, first)
    ensures SegmentsFull(Append(s, r), first) && Append(s, r).limit == s.limit
  {
    hide Flush, SizeOf, Rotate, JustFull;
    var b := BeforeAppend(s);
    if s.bytesWritten >= s.limit {
      RotateFull(s, first);
    }
    if Accepted(r.entry) {
      var w := b.(pending := b.pending + [r], bytesWritten := b.bytesWritten + RecordSize(r));
      var all := b.files[b.active] + b.pending;
      assert w.files[w.active] + w.pending == all + [r];
      SizeAppend(all, r);
      assert (all + [r])[..|all|] == all;
      FlushFull(w, first);
    }
  }

  lemma SizeAppend(rs: seq<LogRecord>, r: LogRecord)
    ensures SizeOf(rs + [r]) == SizeOf(rs) + RecordSize(r)
  {
    assert (rs + [r])[..|rs|] == rs;
  }

  lemma CleanupFull(s: LogState, first: nat, minReplica: nat)
    requires SegmentsFull(s, first)
    ensures SegmentsFull(Cleanup(s, minReplica), first) && Cleanup(s, minReplica).limit == s.limit
  {
    hide JustFull, NotFullBefore, SizeOf;
  }

  lemma OpenFull(files: map<nat, seq<LogRecord>>, capacity: nat, limit: nat)
    ensures SegmentsFull(OpenLog(files, capacity).(limit := limit), Latest(files.Keys) + 1)
  {
    EmptySize();
    var s := OpenLog(files, capacity);
    assert s.files[s.active] + s.pending == [];
    assert forall n :: n in files ==> n <= Latest(files.Keys);
  }

  lemma {:induction false} FixedRunFull(s: LogState, first: nat, ops: seq<LogOp>)
    requires SegmentsFull(s, first)
    requires forall op :: op in ops ==> !op.DoSetLimit? && !op.DoReopen?
    ensures SegmentsFull(FixedRun(s, ops), first) && FixedRun(s, ops).limit == s.limit
  {
    hide SegmentsFull, Append, Flush, Cleanup;
    if ops != [] {
      var op := ops[|ops| - 1];
      assert op in ops;
      FixedRunFull(s, first, ops[..|ops| - 1]);
      var t := FixedRun(s, ops[..|ops| - 1]);
      match op {
        case DoAppend(r) => AppendFull(t, first, r);
        case DoFlush => FlushFull(t, first);
        case DoCleanup(r) => CleanupFull(t, first, r);
        case DoMark => MarkFull(t, first);
      }
    }
  }

  lemma MarkFull(s: LogState, first: nat)
    requires SegmentsFull(s, first)
    ensures SegmentsFull(MarkFlushed(s), first)
  {}

  /** Over every run, with a fixed limit, of a log opened on any directory: each segment closed in the run
      has reached the limit, and had not reached it before its last record. */
  lemma ClosedSegmentsFull(files: map<nat, seq<LogRecord>>, capacity: nat, limit: nat, ops: seq<LogOp>)
    requires forall op :: op in ops ==> !op.DoSetLimit? && !op.DoReopen?
    ensures var start := OpenLog(files, capacity).(limit := limit);
            var s := FixedRun(start, ops);
            forall n :: start.active <= n < s.active && n in s.files ==>
              var rs := s.files[n];
              SizeOf(rs) >= limit && (|rs| > 1 ==> SizeOf(rs[..|rs| - 1]) < limit)
  {
    hide FixedRun, SizeOf;
    OpenFull(files, capacity, limit);
    FixedRunFull(OpenLog(files, capacity).(limit := limit), Latest(files.Keys) + 1, ops);
  }
}
