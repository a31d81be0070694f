# CityHall storage engine: a verified model

CityHall is an LSM-tree storage engine: writes go to a segmented log and a memtable, full memtables
become SSTable files, and tables are merged by compaction. This project models that engine in Dafny
and proves that its layers agree with one simple map, the map built by replaying the puts in order.

| file | what it covers |
|---|---|
| Bytes, Numbers, Results, Entries | byte order, little-endian integers, directory listings, sorted entry lists, the replayed map |
| Memtable | the in-memory table and its size estimate |
| Records, WalLog, Wal | log records, the segmented log as records, the log object over files of bytes |
| Varint, Block, Bloom, Format | varints, prefix-compressed blocks, the Bloom filter, header, footer and index |
| TableLayout, SstWriter, SstReader, TableSizes | the SSTable file, the writer object, the reader, and how large files get |
| Merge, Selection | the k-way merge and the choice of tables to compact |
| Tables, CompactionReads, TableFiles | the table list, compaction on it against point reads, and the order after a restart |
| EngineModel, EngineRuns | the engine as a state machine, and what readers see over every run |
| Durability, DurableRuns | what the log covers, and what restarts preserve over every safe run |
| Losses, AnyRuns | exactly what restarts and crashes change, in any state and over any run |
| EngineScan, StaleReads | range scans against point reads, and runs with stale scans and compactions |
| Engine, EngineFiles | the engine object, and its reads through the bytes of the table files |

Objects the source updates in place are classes. Their methods are proved equal to a step of a
specification function on the old state, and the properties are proved about those functions and
about whole runs. The central facts:

* The tables, the frozen memtable and the active memtable, laid over each other, are the replayed
  map in every reachable state. A flush in flight exists exactly while a frozen memtable does.
* A restart preserves every read as long as the log starts no later than the memtables do and its
  buffer is empty. Each way of breaking this is characterised by an if-and-only-if, with a run that
  shows it.
* Over every run with rotations, restarts and crashes at any point, reads are the last surviving puts:
  those in the files, followed by those in the log files.
* The bytes of an SSTable and of a log segment decode to exactly what was encoded, and indexed
  lookup and scan are list lookup and range.

Parameters, with no global assumptions: Snappy is a pair of functions, where decompression inverts
each successful compression; CRC-32 and the keyed Bloom hash are arbitrary functions; the clock, the
file system and the moments at which the flush thread runs are inputs or steps.

## Findings

Where a promise of the code fails, the model keeps the code and states when it holds.

* **Fallback flush.** When the wait for the flush thread runs out, the newer memtable is flushed below
  the frozen older one. Reads stay right exactly when the two agree on their common keys. The flush
  also cleans the log while the frozen table's file is still unwritten, so a restart can lose its puts.
* **Rotation during a flush.** Registering a finished table deletes all segments before the active one,
  also those that hold puts made since the freeze. The put is lost at the next restart unless it is
  put again or already had that value.
* **Crash with buffered records.** A flush does not write out the log buffer. After a crash an older
  durable record can be replayed over a newer value in a table. Reads survive exactly when each
  buffered key's last record on disk, or without one the tables, already give its value.
* **Compaction order.** The output is appended as the newest table, and at the next restart every
  compacted table sorts as the oldest, since its file name does not parse as a number. Both are safe
  exactly when the tables involved agree.
* **Compaction names.** The counter after a restart skips compacted names. A later output can take the
  name of a live compacted file, overwrite it and, if that file is an input, be removed with it. Every
  later output is new exactly when the counter has passed all compacted numbers.
* **Compaction during a flush.** The directory also offers a finished file that is not registered yet.
  If it is chosen it is deleted with the inputs, cannot be registered, and the frozen memtable stays.
* **Ties.** Merge and scan decide by timestamps in whole seconds, point reads by layer. With equal
  timestamps a merge or a scan may return the older value. Each has its exact condition.
* **Empty scans.** An empty scan before a non-empty one shifts the merge's cursors, and the merge
  then runs out of bounds. A failed scan can hide this, and entries are then lost without a sign. Keys
  longer than 1024 bytes that start with 1024 bytes of 0xFF are not scanned at all.
* **Scan end.** The key at the end of an engine scan is answered by the tables alone.
* **Corruption in scans.** A point read skips a table that is corrupted for its key, but a scan fails with
  that table's error. A file without a Bloom filter is scanned as usual, but no point read finds a key in it.
* **Torn record.** A log cut inside a record body makes recovery fail with an I/O error. It is not treated
  as the end of the log, as `ARCHITECTURE.md` says.

The log record layout in `ARCHITECTURE.md` and the header and footer sizes in `src/sstable/README.md`
differ from the code; the model follows the code.

## Model

| member | source | states |
|---|---|---|
| Bytes.LessIff | src/memtable.rs:9 | a key comes first if and only if, at the first difference, it ends or has the smaller byte |
| Bytes.LittleEndianDigits | src/sstable/format.rs:48-63 | byte i of a stored integer is its digit i in base 256 |
| Entries.RangeCorrect | src/storage_engine.rs:392-399 | a range holds exactly the entries from start to the end, included or not as asked, in order |
| Entries.SortedEntriesCorrect | src/memtable.rs:108-113 | iterating a memtable is strictly sorted, complete and free of duplicates: replaying it rebuilds the map |
| Entries.SortedListUnique | src/memtable.rs:108-113 | a strictly sorted list is determined by the map it builds |
| Entries.ReplayOverlap | src/storage_engine.rs:77-81 | replaying a log suffix over tables that already hold part of it gives the whole history |
| Memtables.MemTable.Put | src/memtable.rs:25-52 | the put replaces the key's version, adjusts the size without underflow, and reports full exactly when the size has reached the limit |
| Memtables.Accounting | src/memtable.rs:30-48 | over every run the size is the exact sum plus key + 48 for each overwritten empty value, and the table is full exactly when that reaches the limit |
| Memtables.SizeExactIff | src/memtable.rs:31-48 | the size is exact if and only if no put overwrote an empty value |
| Memtables.NoUnderflow | src/memtable.rs:41-44 | subtracting the old value's length never goes below zero |
| Memtables.ScanContentsCorrect | src/memtable.rs:73-82 | a memtable scan aborts if the end comes before the start, and otherwise is sorted and holds exactly the keys from start up to, not including, end |
| Memtables.RefillRestores | src/storage_engine.rs:256-261 | the frozen copy holds the same contents as the memtable it replaces |
| Records.EncodeRecord | src/wal.rs:398-433 | the bytes built step by step are the record layout, with all three length checks |
| Records.EncodeAcceptsIff | src/wal.rs:403-418 | a record is accepted if and only if key and value together have at most 65521 bytes |
| Records.RecordLayout | src/wal.rs:398-433 | where each field of a record is, with the checksum over everything after it |
| Records.RecordRoundTrip | src/wal.rs:435-493 | reading a written record in front of any bytes returns it and leaves the rest |
| Records.ParseExactly | src/wal.rs:469-490 | the data of a record parses as an entry if and only if it starts with that entry's encoding |
| Records.ParseErrors | src/wal.rs:469-483 | lengths that promise more than there is are corruption, and data too short for its fixed fields aborts |
| Records.RecoverSegment | src/wal.rs:250-270 | the recovery loop is the recursive replay that stops quietly only at the end or a checksum mismatch |
| Records.RecoverPrefix | src/wal.rs:250-270 | whatever follows whole records, recovery yields them and then what the tail yields |
| Records.RecoverRaw | src/wal.rs:250-270 | what any record after whole ones does to the replay: an unknown operation fails it, a wrong checksum or lengths that do not fit end it quietly, short data aborts, and an entry is added |
| Records.DamagedRecord | src/wal.rs:456-467 | a record whose checksum is not that of its bytes ends the segment: the records before it are recovered, and nothing from it on |
| Records.CutExists | src/wal.rs:435-454 | every truncation point falls after a definite number of whole records |
| Records.TornTail | src/wal.rs:250-270 | a truncated segment yields exactly the whole records before the cut, or an I/O error if the cut is inside a body |
| WalLog.AppendKeeps | src/wal.rs:108-118 | an append adds one record at the end of what is retained, across rotation, and a rejected one adds none |
| WalLog.AppendExactly | src/wal.rs:367-380 | an append starts a new segment exactly when the active one has reached the limit, and writes the buffer out exactly when the record fills it |
| WalLog.ClosedSegmentsFull | src/wal.rs:108-133 | over every run with a fixed limit, on any directory: each segment closed has reached the limit, and had not before its last record |
| WalLog.RotateKeeps | src/wal.rs:120-133 | rotation flushes first, so nothing is lost and the new segment starts empty |
| WalLog.CleanupExact | src/wal.rs:155-197 | cleanup keeps exactly the segments from the flush mark on and, given a replica position, those from it on; never deletes the active one |
| WalLog.CleanupKeeps | src/wal.rs:155-197 | what cleanup leaves is contiguous and still a suffix of the history |
| WalLog.RetentionInvariant | src/wal.rs:48-248 | over every run of appends, flushes, marks, cleanups and reopenings: contiguous segments ending at the active one, flush mark in range, a contiguous suffix of the history retained |
| WalLog.NothingDropped | src/wal.rs:108-137 | without cleanup or crash the log holds the whole history |
| Wals.Directory.FindLatestSegmentNumber | src/wal.rs:74-87 | the largest segment number, for any listing order, and zero for none |
| Wals.WalSegment.constructor | src/wal.rs:353-365 | opening a segment creates its file or keeps its contents |
| Wals.WalSegment.Append | src/wal.rs:371-380 | the record is buffered, and buffer and record go to the file together once the capacity is reached |
| Wals.WalSegment.Flush | src/wal.rs:382-389 | the buffer moves to the end of the file |
| Wals.Wal.constructor | src/wal.rs:48-67 | a new log starts the segment after the last one found |
| Wals.Wal.AppendOperation | src/wal.rs:108-118 | the bytes follow the record-level append, including rotation before a rejected record |
| Wals.Wal.RotateSegment | src/wal.rs:120-133 | the bytes follow the record-level rotation |
| Wals.Wal.Flush | src/wal.rs:135-137 | the bytes follow the record-level flush |
| Wals.Wal.MarkFlushed | src/wal.rs:140-144 | the flush mark becomes the active segment |
| Wals.Wal.CleanupOldSegments | src/wal.rs:155-210 | for any listing order the deletion loop is the record-level cleanup |
| Wals.Wal.RecoverDirectory | src/wal.rs:212-248 | recovery replays the segments in number order and stops at the first error |
| Wals.RecoverStored | src/wal.rs:212-248 | recovering stored segments returns every record in segment order |
| Wals.RecoverFirstError | src/wal.rs:229-248 | recovery fails if and only if some segment fails, with the error of the first that does |
| Wals.DamagedLog | src/wal.rs:212-270 | a segment with a wrong checksum after its records yields those, and the later segments are still replayed |
| Wals.TornLog | src/wal.rs:212-270 | the last segment cut at any byte: earlier segments and whole records, or an I/O error for the whole recovery |
| Wals.WriteThenRecover | src/wal.rs:108-270 | append all, flush, recover gives back every entry in order, for any segment limit and buffer size |
| Varints.EncodeVarint | src/sstable/block.rs:114-120 | the loop appends the LEB128 bytes of the value |
| Varints.VarintDigits | src/sstable/block.rs:114-120 | byte i is digit i in base 128, with the high bit on all but the last, and there are as many bytes as digits |
| Varints.DecodeVarint | src/sstable/reader.rs:321-346 | the loop is the recursive decoder, with truncation and overlong errors |
| Varints.VarintRoundTrip | src/sstable/reader.rs:321-346 | every 64-bit value decodes back, whatever follows |
| Varints.DecodesIff | src/sstable/reader.rs:321-346 | bytes decode if and only if one of the first ten ends a varint |
| Varints.DecodesToGroups | src/sstable/reader.rs:321-346 | groups that fit the word decode to the number they make up, padded or not |
| Varints.DecodeFits | src/sstable/reader.rs:333-342 | on any bytes the decoded value fits 64 bits |
| Blocks.ComputeCommonPrefixLen | src/sstable/block.rs:103-111 | the loop finds the common prefix length |
| Blocks.CommonPrefixCorrect | src/sstable/block.rs:103-111 | the prefixes of that length agree and the next bytes, if any, differ |
| Blocks.EntryLayout | src/sstable/block.rs:37-51 | an entry is stored with the longest prefix it shares with the key before it, the fields in this order |
| Blocks.BlockBuilder.Add | src/sstable/block.rs:31-60 | the buffer encodes one more entry, and last key, first key and count stay in step |
| Blocks.BlockBuilder.Reset | src/sstable/block.rs:94-99 | the builder holds nothing again |
| Blocks.DecodeBlock | src/sstable/reader.rs:257-316 | the decoding loop is the recursive decoder with the same checks in the same order |
| Blocks.DecodeFields | src/sstable/reader.rs:262-310 | what any lengths, key bytes, value and timestamp decode to, and when they are rejected |
| Blocks.DecodeErrors | src/sstable/reader.rs:257-316 | bytes that are not a block are always reported as corrupted data |
| Blocks.BlockRoundTrip | src/sstable/reader.rs:257-316 | decoding a block built from a strictly sorted list returns the list |
| Blocks.DecoderSound | src/sstable/reader.rs:257-316 | any bytes that decode give empty keys and then strictly increasing ones, and re-encoding them decodes to the same entries |
| Blooms.GetAfterSet | src/sstable/bloom.rs:83-100 | setting a bit sets that bit and no other |
| Blooms.HashKey | src/sstable/bloom.rs:59-72 | the loop computes every double-hashed position in wrapping arithmetic |
| Blooms.PositionsExactly | src/sstable/bloom.rs:59-72 | position i is the first hash plus i times the second, wrapped to 64 bits, modulo the number of bits |
| Blooms.BloomFilterBuilder.SetBitAt | src/sstable/bloom.rs:83-89 | the array changes as the bit-setting function says |
| Blooms.BloomFilterBuilder.Add | src/sstable/bloom.rs:199-204 | adding a key in place sets all its positions |
| Blooms.BitsAreKeyPositions | src/sstable/bloom.rs:59-89 | a bit is set if and only if some added key hashes to it |
| Blooms.ContainsExactly | src/sstable/bloom.rs:103-106 | a key is reported if and only if each of its positions belongs to an added key |
| Blooms.NeverLosesAKey | src/sstable/bloom.rs:103-106 | every added key is reported |
| Blooms.FilterRoundTrip | src/sstable/bloom.rs:109-164 | the stored filter decodes to itself |
| Blooms.FilterLayout | src/sstable/bloom.rs:109-121 | where the counts and each bit of a stored filter are |
| Blooms.FilterDecodesIff | src/sstable/bloom.rs:124-164 | non-empty bytes decode to a filter if and only if they are its encoding with the right number of bytes |
| Blooms.EmptyStoredFilterAdmitsAll | src/sstable/bloom.rs:124-134 | an empty stored filter admits every key |
| Formats.PadTo | src/sstable/format.rs:57-60 | padding fills with zeros up to the size |
| Formats.EncodeHeader | src/sstable/format.rs:48-63 | the buffer is the header layout |
| Formats.HeaderLayout | src/sstable/format.rs:48-63 | where each field of the 64 bytes is, and zeros after them |
| Formats.HeaderRoundTrip | src/sstable/format.rs:65-94 | a header reads back if its magic number is right, and is rejected otherwise |
| Formats.EncodeFooter | src/sstable/format.rs:108-123 | the buffer is the footer layout |
| Formats.FooterLayout | src/sstable/format.rs:108-123 | where each field of the 64 bytes is, and zeros after them |
| Formats.FooterRoundTrip | src/sstable/format.rs:125-147 | a footer reads back |
| Formats.IndexEntryRoundTripIff | src/sstable/format.rs:159-205 | an index entry reads back if and only if its key length fits sixteen bits |
| Formats.IndexEntryLayout | src/sstable/format.rs:159-171 | where each field of an index entry is, with the key length modulo 65536 |
| Formats.IndexEntryDecodesIff | src/sstable/format.rs:173-205 | bytes decode to an entry and a rest if and only if they are its encoding followed by the rest |
| Formats.EncodeIndex | src/sstable/writer.rs:178-186 | the loop concatenates the encoded index entries |
| Formats.ReadIndexEntries | src/sstable/reader.rs:170-185 | the loop is the recursive index decoder |
| Formats.IndexRoundTrip | src/sstable/reader.rs:170-185 | an index of keys within the length limit reads back whole |
| TableLayout.TimestampRange | src/sstable/writer.rs:73-78 | the header's timestamps bound all entries and are attained |
| TableLayout.JoinSlice | src/sstable/writer.rs:107-117 | a block is found at the offset that the blocks before it take up |
| SstWriter.BlocksOfCorrect | src/sstable/writer.rs:83-124 | splitting into blocks loses nothing and leaves no empty block, for any block size |
| SstWriter.BlockSizes | src/sstable/writer.rs:83-86 | every block but the last has reached the block size in bytes, and no block had reached it before its last entry |
| SstWriter.SsTableWriter.constructor | src/sstable/writer.rs:45-64 | the file starts with a reserved header |
| SstWriter.SsTableWriter.Add | src/sstable/writer.rs:68-89 | filter, timestamps and block take the entry, and a full block is closed; if it does not compress, the entry stays in the open block and the error is returned |
| SstWriter.SsTableWriter.FlushBlock | src/sstable/writer.rs:92-124 | the block's bytes, its index entry and the offset move together, or nothing changes if the block does not compress |
| SstWriter.SsTableWriter.Finish | src/sstable/writer.rs:137-175 | the finished file has the complete layout with the real header in front, unless the last block does not compress |
| SstWriter.WriteTable | src/storage_engine.rs:169-179 | writing a memtable's entries gives the table file for them if all its blocks compress, and the compression error otherwise |
| SstWriter.WrittenTableLoads | src/sstable/reader.rs:38-62 | opening a written file loads exactly its index, filter and header |
| SstWriter.FileLayout | src/sstable/writer.rs:137-175 | where header, blocks, filter, index and footer are in a written file, and what the footer says |
| SstWriter.StoredBlock | src/sstable/writer.rs:107-117 | the bytes at the place the index gives for a block are those written for it |
| SstWriter.WrittenTableOpens | src/sstable/reader.rs:227-251 | every block of a written file reads back, the filter admits every key, and the header has the magic number, version 1, the block count and the timestamps |
| SstWriter.TableAnswers | src/sstable/reader.rs:76-130 | for any sorted list and block size, the written file opens and answers lookups and scans as the list does |
| SstReader.PartitionPointCorrect | src/sstable/reader.rs:209-213 | the search separates first keys at most the key from greater ones |
| SstReader.FoundBlock | src/sstable/reader.rs:199-222 | only the block found can hold the key |
| SstReader.SearchIsLookup | src/sstable/reader.rs:94-97 | binary search in a sorted block is list lookup |
| SstReader.GetIsLookup | src/sstable/reader.rs:76-98 | filter, index and block search together are list lookup, for present and absent keys |
| SstReader.BlockErrors | src/sstable/reader.rs:227-251 | a block read fails exactly if there is no such block, if its place ends past the file (an I/O error), or if its bytes do not decompress or decode (corrupted data) |
| SstReader.GetExactly | src/sstable/reader.rs:76-98 | in any file: a key the filter rejects is absent without a block being read, and for any other the answer or error is that of its one candidate block |
| SstReader.NoFilterFindsNothing | src/sstable/reader.rs:155-159 | in a file without a filter no key is found, since an empty filter takes its place |
| SstReader.SsTableReader.Scan | src/sstable/reader.rs:103-130 | the scan loops are the recursive scan from the start block |
| SstReader.ScanIsRange | src/sstable/reader.rs:103-130 | a scan is exactly the entries from start to end, both included, in order |
| SstReader.ScanStops | src/sstable/reader.rs:118-121 | a scan ends with the block that holds a key past the end, whatever later blocks hold |
| SstReader.ScanFails | src/sstable/reader.rs:110-111 | a block that cannot be read, before a key past the end, fails the scan with its error |
| Merges.OpenCursors | src/compaction.rs:138-159 | which cursors exist and which fronts are on the heap, with no cursor for an empty scan |
| Merges.TopExists | src/compaction.rs:47-56 | the two-part order always has a top |
| Merges.MergeEnds | src/compaction.rs:169-205 | whatever the streams popped, the output is sorted if and only if each runs in key order, and then it is their merge |
| Merges.PopKeeps | src/compaction.rs:169-205 | one pop keeps the output sorted, covering the first entries of each key taken and before everything left |
| Merges.MergeSstables | src/compaction.rs:131-210 | for any scans, failed ones included: it runs out of bounds if and only if a table with entries has no cursor of its number; otherwise the output is a merge of the inputs if and only if the streams run in key order and show every input; aligned scans always merge, and the counts add up |
| Merges.MergeCountsKeys | src/compaction.rs:164-209 | the entries written number the distinct keys |
| Merges.MisalignedStray | src/compaction.rs:138-162 | misaligned scans without a failure put a table number on the heap that has no cursor |
| Merges.HiddenMisalignment | src/compaction.rs:142-157 | an empty, a full and a failed scan: the merge finishes and loses an entry |
| Merges.PastBoundIff | src/compaction.rs:140 | a key lies past the scan bound if and only if it extends 1024 bytes of 0xFF |
| Merges.ScanCompleteIff | src/compaction.rs:140-152 | the merge scan returns the whole table if and only if no key lies past the bound |
| Merges.EmptyScanIff | src/compaction.rs:140-152 | the merge scan of a table is empty if and only if all its keys lie past the bound |
| Selection.MeasuredExactly | src/compaction.rs:224-231 | exactly the files whose size can be read are considered |
| Selection.SortBySizeCorrect | src/compaction.rs:234 | the files are ordered by size and none is lost |
| Selection.SortBySizeStable | src/compaction.rs:234 | files of equal size keep their order |
| Selection.LargestGroup | src/compaction.rs:236-257 | the greedy scan leaves the first of the largest stretches of similar size |
| Selection.SelectSstablesForCompaction | src/compaction.rs:215-260 | the group is empty or has enough files, each at most one and a half times as large as any other, in order of size; no such group is larger, and none as large has a smaller first file |
| EngineModel.GetIsView | src/storage_engine.rs:343-390 | layered lookup is one lookup in the layers laid over each other |
| EngineModel.PutKeeps | src/storage_engine.rs:191-235 | a put changes exactly its key's read, whatever is flushed on the way |
| EngineModel.PutFlushesIff | src/storage_engine.rs:216-223 | an accepted put is only stored if the size stays below the limit, and otherwise waits in background mode, or is flushed at once to one new table under the next number |
| EngineModel.CompleteKeeps | src/storage_engine.rs:273-295 | registering finished tables changes no read |
| EngineModel.CompleteExactly | src/storage_engine.rs:273-295 | the drain registers every reported file in order, drops the frozen memtable, and leaves only the active log segment |
| EngineModel.FreezeKeeps | src/storage_engine.rs:251-271 | freezing moves the memtable's contents to the frozen one, leaves the active one empty, and changes no read |
| EngineModel.CompactKeepsFlightIff | src/storage_engine.rs:454-518 | the flush in flight survives a compaction if and only if its finished file is not among the inputs; otherwise the frozen memtable stays with nothing in flight |
| EngineModel.CompactKeeps | src/storage_engine.rs:490-511 | a compaction of registered tables keeps the structure, and if it is safe every read |
| EngineRuns.FallbackReadsIff | src/storage_engine.rs:247-249 | the fallback changes no read if and only if the two memtables agree on common keys |
| EngineRuns.ReadsRefineMap | src/storage_engine.rs:191-511 | in every reachable interleaving, with agreeing fallbacks and safe compactions of registered tables, a read is the last put, and a frozen memtable is present exactly while a flush of its contents is in flight |
| Durability.PutKeepsDurable | src/storage_engine.rs:191-235 | a put keeps every unflushed put in the log, if no table is registered after a rotation |
| Durability.FlushSyncKeepsDurable | src/storage_engine.rs:297-341 | a synchronous flush and its cleanup keep every unflushed put in the log |
| Durability.ReopenTables | src/storage_engine.rs:83-109 | sorting the table files by number restores the table order, with an unregistered finished file last |
| EngineModel.RecoveredNumbers | src/storage_engine.rs:83-137 | a restart lists every table file that opens once, by number, and numbers new ones after the largest |
| Durability.ReopenView | src/storage_engine.rs:67-137 | after any crash readers see the puts in files overridden by the puts in the log |
| Durability.ReopenKeepsDurable | src/storage_engine.rs:67-137 | restarting with an empty buffer keeps durability, so restarts can repeat |
| DurableRuns.DurableRun | src/storage_engine.rs:67-390 | over every safe run with any limits, modes and restarts, reads are the last puts and the log covers the memtables |
| DurableRuns.MemtableKeysLogged | src/storage_engine.rs:316-341 | the latest put of every key in either memtable is in a retained segment or the buffer |
| DurableRuns.RestartPreservesReads | src/storage_engine.rs:67-137 | a restart with an empty buffer leaves every read unchanged |
| Losses.GapReadsIff | src/wal.rs:184-187 | leaving puts out of the history changes no read if and only if each is put again or changed nothing |
| Losses.RestartReadsExactly | src/storage_engine.rs:67-137 | in any layered state, whatever the log has lost, a clean or unbuffered restart preserves reads if and only if the puts between the files and the log are harmless |
| Losses.CrashReadsExactly | src/storage_engine.rs:67-137 | in any such state a crash changes only keys with a put in that gap or in the buffer, and none if and only if the disk gives those their last values |
| Losses.CompletionLossIff | src/storage_engine.rs:283-292 | registering a table and restarting preserves reads if and only if the puts the cleanup dropped are harmless, and crashing if and only if the disk gives the keys at risk their last values |
| Losses.FallbackRestartIff | src/storage_engine.rs:247-249 | a restart after a fallback gives the reads from before it if and only if the puts neither in a file nor in the log are harmless, always with the frozen table's file written; a crash if and only if the disk gives the keys at risk their last values |
| Losses.CrashReadsIff | src/storage_engine.rs:316-341 | a crash preserves reads if and only if, for every buffered key, its last record in the log files has the buffered value, or there is none and the table files give it; other keys never change |
| Losses.RotationLosesPut | src/storage_engine.rs:273-341 | a run in which a rotation between freeze and completion loses a put |
| Losses.BufferedCrashIsStale | src/storage_engine.rs:297-341 | a run in which a crash brings back an overwritten value |
| Losses.FallbackIsStale | src/storage_engine.rs:247-249 | a run in which the fallback brings back an overwritten value |
| Losses.FallbackLosesPut | src/storage_engine.rs:247-249 | a run in which a crash after the fallback loses a put |
| AnyRuns.LiveKeepsLayered | src/storage_engine.rs:67-341 | every step but fallback and compaction keeps the layers and the log in line with the surviving puts |
| AnyRuns.AnyRun | src/storage_engine.rs:67-390 | over every run without fallback and compaction, with rotations, restarts and crashes at any point, reads are the last surviving puts |
| AnyRuns.AnyRestartIff | src/storage_engine.rs:67-341 | at the end of every such run, exactly when a restart, and exactly when a crash, changes no read |
| EngineScan.SortLookup | src/storage_engine.rs:400 | the stable sort puts each key's newest entry first, the earliest gathered on ties |
| EngineScan.DedupCorrect | src/storage_engine.rs:401 | removing repeats leaves strictly sorted keys and each key's first entry |
| EngineScan.ScanExact | src/storage_engine.rs:392-403 | a reversed range aborts; otherwise, whatever the timestamps, a scan is sorted and answers on [start, end) the newest-stamped layer, the first gathered on ties, and at end the tables alone |
| EngineScan.ScanAgreesIff | src/storage_engine.rs:392-403 | on [start, end) a scan agrees with point reads if and only if that layer has the value of the layer a point read takes |
| EngineScan.ScanAgreesWithGet | src/storage_engine.rs:392-403 | when timestamps follow the layers a scan holds on [start, end) exactly the versions point reads take; at end it answers from tables alone |
| StaleReads.TiedScanIsStale | src/storage_engine.rs:400-401 | a run of two puts in one second after which a scan returns the overwritten value |
| CompactionReads.MergeKeepsTop | src/compaction.rs:169-190 | a merge holds exactly the keys of its inputs, each in a version with the newest timestamp |
| CompactionReads.MergeWith | src/compaction.rs:47-56 | any version with the newest timestamp of its key may be the one a merge keeps |
| CompactionReads.CompactionReadsIff | src/storage_engine.rs:490-511 | for whatever lists the scans return, every merge of them leaves every read unchanged if and only if each version a merge may keep is what the tables answer, and keys the lists lack are answered by the kept tables |
| CompactionReads.ScannedIff | src/compaction.rs:138-152 | the scans return exactly the entries of the chosen tables within the bound |
| CompactionReads.TablesCompactionIff | src/storage_engine.rs:490-511 | a compaction leaves every read unchanged, whatever the merge does on ties, if and only if every newest-stamped chosen version within the bound is what the tables answer, and keys past the bound are answered by the kept tables |
| CompactionReads.CompactionPreservesReads | src/storage_engine.rs:490-511 | every read survives when no chosen key lies past the bound, the newest holder of each is chosen, and older chosen versions are older by timestamp or have the same value |
| CompactionReads.CompactTables | src/storage_engine.rs:490-511 | scan, merge, drop and append: it aborts if and only if the scans are misaligned, and a safe compaction changes no read |
| TableFiles.RestartOrder | src/storage_engine.rs:102-109 | a restart puts every compacted table first, as listed, and then the numbered ones |
| TableFiles.RestartReadsIff | src/storage_engine.rs:102-109 | for any table list and any directory listing, a restart changes no read if and only if the numbered files, and where they lack a key the compacted ones as listed, answer as the list did, and no key is missing |
| TableFiles.CompactedSortsFirst | src/storage_engine.rs:102-109 | after one compaction a restart moves the compacted table from last to first, for any directory listing |
| TableFiles.RestartAfterCompactionIff | src/storage_engine.rs:102-109 | after one compaction a restart, for any directory listing, changes no read if and only if the compacted table agrees with the kept ones on shared keys |
| TableFiles.OutputsSurviveIff | src/storage_engine.rs:94-98 | every later output has a new name and is still there after its compaction if and only if the counter has passed every compacted number |
| TableFiles.OutputReplacesInput | src/storage_engine.rs:490-518 | with file 5 compacted and nothing numbered, output 5 overwrites it and is removed as an input |
| StaleReads.FourChosen | src/compaction.rs:215-260 | four files of similar size and at most one too large: exactly the four are chosen |
| StaleReads.OneEntrySize | src/sstable/writer.rs:137-175 | the size of a table file with one entry, for any codec: only the block is compressed |
| StaleReads.UnchosenNewerIsHidden | src/storage_engine.rs:501-510 | for any codec and values: if the newer table's file is more than one and a half times as large as the four older ones, these are chosen and their output hides it |
| StaleReads.TiedMergeMayGoBack | src/compaction.rs:47-56 | for any codec and values of similar file size put in one second: all four tables are chosen and a merge may bring back the overwritten value |
| StaleReads.PastBoundAborts | src/compaction.rs:140-152 | for any codec and entries: if the file with a key past the bound is the smallest of four of similar size, all are chosen, and in order of size the merge aborts |
| StaleReads.SizesExample | src/sstable/writer.rs:137-175 | those assumptions on sizes hold for values that the codec does not shrink |
| Engines.StorageEngine.constructor | src/storage_engine.rs:67-137 | the engine object starts as the recovered state: log replayed, tables in number order, counter after the last |
| Engines.StorageEngine.StorePut | src/storage_engine.rs:215-222 | the memtable takes the put, and a full one is flushed at once or after a wait |
| Engines.StorageEngine.Put | src/storage_engine.rs:191-235 | the object's put is a run of the state machine: one put step and, if full, a wait that ends in a freeze or the fallback |
| Engines.StorageEngine.WaitForFlush | src/storage_engine.rs:238-246 | the wait is a run of completions and background writes, with at most 100 looks, and exactly 100 if the frozen memtable is still there |
| Engines.StorageEngine.TriggerBackgroundFlush | src/storage_engine.rs:237-271 | that wait ends in a freeze, or in the fallback if the frozen memtable is still there |
| Engines.StorageEngine.CheckFlushCompletion | src/storage_engine.rs:273-295 | the drain loop registers every reported table |
| Engines.StorageEngine.FlushMemtableSync | src/storage_engine.rs:297-313 | the synchronous flush step |
| Engines.StorageEngine.CleanupWalAfterFlush | src/storage_engine.rs:316-341 | mark, then clean without replicas |
| Engines.StorageEngine.BackgroundWriteStep | src/storage_engine.rs:149-165 | the flush thread's step |
| Engines.StorageEngine.GetValue | src/storage_engine.rs:343-390 | the layered read of the object is the read of its state |
| Engines.StorageEngine.ScanRange | src/storage_engine.rs:392-403 | the object's scan is the scan of its state |
| Engines.IdleKeeps | src/storage_engine.rs:240-246 | completions and background writes during a wait change no read and leave the active memtable alone |
| Engines.PutRunReads | src/storage_engine.rs:191-271 | whatever the flush thread does during a put of the engine object, reads change at the put's key only, unless it waited over disagreeing memtables |
| EngineFiles.GetFromReaders | src/storage_engine.rs:366-384 | the newest table that is decisive, with a version or an error other than corruption, gives the value or the error of the read, and the key is absent if and only if there is none |
| EngineFiles.ReadersAnswer | src/storage_engine.rs:366-384 | readers that answer for their tables answer together as the table list does |
| EngineFiles.CorruptedTableSkipped | src/storage_engine.rs:378-381 | a table that is corrupted for a key is read as if it were not there |
| EngineFiles.DamagedFileRead | src/storage_engine.rs:366-384 | if no newer table decides: a block past the end of its file fails the read with an I/O error, and one that does not decompress leaves it to the older tables |
| EngineFiles.GatherFailsIff | src/storage_engine.rs:397-399 | an engine scan fails if and only if the scan of some table does, corrupted data included, with the error of the oldest |
| EngineFiles.GatherFromReaders | src/storage_engine.rs:397-399 | the loop appends what every table file holds in the range, oldest first, or stops at the first error |
| EngineFiles.StorableExample | src/sstable/writer.rs:137-175 | the hypotheses on codec and sizes can be met |
| EngineFiles.ReadsThroughFiles | src/storage_engine.rs:343-390 | in every reachable interleaving, reads through the memtables and the bytes of the table files return the last put |
| EngineFiles.ScansThroughFiles | src/storage_engine.rs:392-403 | in every such run, a scan through the bytes of the table files aborts on a reversed range, and otherwise is sorted and answers every key as stated for EngineScan.ScanExact |
| EngineFiles.RestartsThroughFiles | src/storage_engine.rs:67-390 | over every safe run, with any number of restarts, reads through the bytes of the table files return the last put |
| EngineFiles.OpenTables | src/storage_engine.rs:83-109 | the files that open are opened in number order, and the others skipped |
| EngineFiles.UnopenedSkipped | src/storage_engine.rs:90-99 | a file that does not open changes nothing for the other files |
| EngineFiles.WrittenFilesOpen | src/storage_engine.rs:83-109 | every file written for a table opens |
| TableSizes.BoundedFits | src/sstable/writer.rs:92-187 | up to 30000 accepted entries stay within every stored width, for a codec that at most doubles a block |
| EngineFiles.WriteRestartRead | src/storage_engine.rs:67-390 | from an empty directory: up to 30000 accepted puts, log flush, crash, and a restart that has only the bytes of the log segments and table files; a read returns the last put, for any limits |

## Left out

- The HTTP dashboard, TCP server, command line and metrics: I/O and formatting.
- Replication: only the replica position passed to the log cleanup is modelled.
- Snappy, CRC-32 and the keyed hash themselves: function parameters.
- The floating-point sizing of the Bloom filter and its false-positive rate: bit and hash counts are inputs. The size test of table selection is modelled as 2 * size <= 3 * base.
- Real file system failures, and partial table files left by a crash during a flush: table files are written whole, and a flush succeeds.
- A failed background flush: its message is lost in the source, and the frozen memtable stays for good.
- Delete records: a record may carry either operation, but the engine theorems are about puts.
- Machine limits on sizes in memory: sizes and offsets are unbounded, except where a stored width truncates, which is modelled. Allocation of a huge decoded key length is not.
- Crashes in the middle of a put: restarts happen between steps of the state machine.
- Log size reporting, listing closed segments and reading one segment: easy queries over the same files.
- The one-second interval and the selection do not restrict the compaction step: its inputs may be any files of the directory.
- What readers see after a finished, unregistered file was compacted: only that its flush can no longer complete.
- Compaction in runs with restarts: files in the state machine are known by number, and compacted names are treated on table lists, in TableFiles.RestartReadsIff.
- A failed scan as part of a compaction step: it is treated in Merges.MergeSstables and, for whatever lists the scans return, in CompactionReads.CompactionReadsIff.
- The order in which the heap breaks ties: any choice is allowed.
- Engines.StorageEngine.constructor: takes the entries of the numbered table files that open; opening bytes is EngineFiles.OpenTables.
- Engines.StorageEngine.CheckFlushCompletion: a reported file that does not open, which ends the put with an error, is a file system failure.
- Engines.StorageEngine.FlushMemtableSync: a failed table write, after which the memtable's puts are only in the log, is a file system failure.
- Engines.StorageEngine.BackgroundWriteStep: a failed write, which reports nothing, is a file system failure.
- Engines.StorageEngine.ScanRange: the object's tables are entry lists, so a scan of them cannot fail; scans of files, and their errors, are EngineFiles.ScansThroughFiles and EngineFiles.GatherFailsIff.
- Engines.StorageEngine.Put: compaction is off in the object, and the timestamp is a parameter in place of the clock.
- SstReader.SsTableReader.Scan: file reads do not move a cursor; a reader is a value over the bytes of its file.
- EngineFiles.ReadsThroughFiles: the engine object keeps table entries, and their files are connected to its states by this lemma.
- EngineFiles.WriteRestartRead: the engine is synchronous. The bound of 30000 puts keeps blocks and index below 4 GiB.
- Merges.MergeSstables: a compression error while the output is written, which ends the compaction before anything is deleted, is not modelled.
- CompactionReads.CompactTables: errors of opening inputs and of writing or reopening the output, which end the compaction, are not modelled.
