# Chronos storage engine: a verified model

Chronos is a small time-series database written in Go. This project models its
storage engine in Dafny and proves what the engine is for: a lossless codec, a
store that loses no acknowledged point, queries that return exactly what was
written, rollups that conserve what they aggregate, and a WebSocket reader that
delivers exactly the payloads it was sent.

`dafny verify dfyconfig.toml` checks everything.

## What is modelled

| file | part of Chronos |
|---|---|
| `Wrappers.dfy`, `Subsequences.dfy`, `Floats.dfy` | optional values; subsequences; the numbers of float64 bit patterns |
| `Words.dfy` | uint64, int64 and uint32 arithmetic with wrap-around, shifts, XOR, bit strings, big-endian bytes |
| `BitStream.dfy` | the bit writer and the bit reader |
| `Codec.dfy`, `CodecProofs.dfy`, `CodecTheorems.dfy`, `CodecImpl.dfy` | the Gorilla codec: stream functions, their meaning, the main results, and the encode and decode loops |
| `ChunkFile.dfy` | the chunk file layout and `ReadChunk` |
| `Wal.dfy` | the write-ahead log record and its replay |
| `IndexFile.dfy` | chunk file names and the text of `index.dat` |
| `StoreMachine.dfy` | one series of the store as a state machine, one step per disk operation |
| `StoreInvariant.dfy`, `StoreSteps.dfy`, `StoreDurability.dfy` | its invariant, kept by every event: chunks and index agree whatever the log holds, and log and chunks together have every logged point |
| `StoreTheorems.dfy`, `StoreCalm.dfy`, `StoreDoubling.dfy` | what holds over whole runs, what holds without crashes, and exactly which crashes double points |
| `StoreLimits.dfy`, `StoreTornLog.dfy`, `StoreRotation.dfy` | where the promises end: chunk ids beyond four digits, appends behind a torn record, buffers outside the codec's domain |
| `StoreImpl.dfy` | `WritePoint`, rotation, flush and opening as methods over fields and a directory, each proved to be a run of the machine |
| `Stores.dfy` | the store of all series, each with a write path and a directory of its own |
| `RawQuery.dfy` | chunk pruning, the raw read path and its in-place filter |
| `Snapshots.dfy`, `SnapshotTheorems.dfy` | concurrent queries and rotations of several series, with Go slices that share backing arrays |
| `Rollup.dfy`, `RollupTheorems.dfy`, `RollupDaily.dfy`, `RollupOrdered.dfy`, `RollupLimits.dfy`, `RollupQueries.dfy`, `RollupTiers.dfy`, `RollupFile.dfy` | accumulators, hourly and daily records, the query planner, rollups against raw points, and the 36-byte record |
| `WebSocket.dfy`, `WebSocketTheorems.dfy` | the frame reader and writer (RFC 6455, sections 5.2 and 5.3) |

A float64 is its IEEE 754 bit pattern in the codec and the store, and in the
rollups the real number this pattern stands for (`Floats.FloatValue`). Timestamps are 64-bit words and wrap where Go wraps.

A run of the store is any sequence of events: a write or flush begins, the
pending disk operation succeeds, fails or is cut short by a crash after any
number of its bytes, the store is opened (and may die while rewriting
`index.dat`). A query against concurrent rotations is any interleaving of the
single steps of any number of readers and of the writers of any number of series.

The machine also records the buffer each chunk file was written from. What the store
*holds* is these buffers in index order and the buffer in memory (`Kept`); what it
*shows* is what its chunk files decode to and the buffer (`Visible`). The two agree
exactly when the codec restores every indexed chunk (`Lossless`).

## Assumptions

* Rename and fsync are atomic and durable: a crash is the death of the process.
* Nothing is appended to the log behind a torn record (`AppendsFairly`). Any append
  may itself be torn, by a failure or a crash, after any number of its bytes: recovery
  drops the torn record (`Wal.TornAppendDropped`). It leaves the bytes in the file,
  though, so a later append is misread: `StoreTornLog.SafeExactlyUntorn` shows that
  runs with appends behind torn records do lose points, for every length of the torn
  part. Results about chunks, index and order assume nothing about the log.
* A series uses chunk ids up to 9999, because the file-name pattern has four
  digits. `StoreLimits.SafeExactlyToFourDigits` shows that this bound is exact.
* The lengths of rotated buffers fit the 32-bit fields of the file (always, up to 300
  million points: `ChunkFile.LengthsFitBound`). Nothing is assumed about the codec:
  results about what the store holds, its index and its log hold for all buffers, and
  results about what it shows name the codec's domain as their exact condition
  (`Lossless`). Only `StoreLimits.SafeExactlyToFourDigits` and
  `StoreTornLog.SafeExactlyUntorn` fix it in advance (`RotatesLosslessly`), so that what
  they find lost is lost for the reason they state.
* Timestamps are assumed nondecreasing only where a result says that range pruning
  drops nothing: a chunk's recorded range is that of its first and last point.
  `RawQuery.RawQueryExactly` is the exact condition, in every run. What a query returns against
  concurrent rotations is stated for any timestamps.
* No hour of a series has 2^32 samples, and for daily records no day: the count is a
  uint32. `RollupLimits.ConservedExactlyToCount` and `RollupLimits.DailyExactlyToCount`
  show these bounds exact.
* Rollup results concern one lifetime of the engine, which starts with empty
  rollup files, and appends to rollup files succeed.

## Where the code and its documentation differ

The model follows the code.

* The comment at `backend/compression/compression.go:126-130` gives the tiers
  of a delta of delta as full two's complement ranges, and the code (lines 195-208)
  as magnitudes of at most 63, 255 and 2047. The magnitude is computed on int64, so
  that of -2^63 stays negative and takes the 7-bit branch; the value is not restored.
* The report (`chronos-complete-implementation-report.md:441`) decides to
  reject late points for a closed hour. The code opens a second bucket for the hour
  and writes a second record; conservation holds all the same.
* The report asks for tier coverage; the planner takes any nonempty rollup
  result (`backend/rollup/engine.go:245-257`).
* `ui/README.md:240` says there is no WAL; there is one.
* The comment at `backend/persistence/wal.go:11-13` promises that no point is
  lost; see the torn record and the four-digit limit above.

## Model

| member | source | states |
|---|---|---|
| BitStream.BitWriter.WriteBit | backend/compression/compression.go:41-49 | the bits written so far grow by exactly this bit, across byte boundaries |
| BitStream.BitWriter.WriteBits | backend/compression/compression.go:53-57 | the lowest n bits of the value are appended, most significant first |
| BitStream.BitWriter.Flush | backend/compression/compression.go:59-65 | the bytes are the packing of all bits ever written |
| BitStream.PackedBits | backend/compression/compression.go:41-65 | unpacking packed bytes gives the bits back, followed by fewer than eight zeros |
| BitStream.PackUnique | backend/compression/compression.go:41-65 | no other bytes unpack to these bits with less than a byte of zero padding |
| BitStream.PackedBitAt | backend/compression/compression.go:41-65 | bit i of the stream is bit 7 - i mod 8 of byte i / 8, and the rest of the last byte is zero |
| Words.XorBit | backend/compression/compression.go:217-219 | an XOR has a bit exactly where one operand has it and the other has not |
| BitStream.BitReader.ReadBit | backend/compression/compression.go:79-90 | reads the first unread bit and fails exactly when none is left |
| BitStream.BitReader.ReadBits | backend/compression/compression.go:92-102 | returns the number the next n bits spell, and fails exactly when fewer are left |
| CodecProofs.SignExtendValue | backend/compression/compression.go:369-372 | sign extension of an n-bit field is the two's complement value of the field |
| CodecProofs.DoDCode | backend/compression/compression.go:186-209 | decoding the code of any delta of delta consumes exactly that code, whatever follows, and returns the int32 congruent to it modulo 2^32, which is the value itself exactly when it fits int32 |
| CodecProofs.DoDLayout | backend/compression/compression.go:186-209 | the code of every delta of delta bit by bit: its tag and length by the magnitude (63, 255, 2047, beyond), and a field that spells it modulo 2^7, 2^9, 2^12 or 2^32; the least int64 counts as small |
| CodecProofs.XORCode | backend/compression/compression.go:217-245 | whatever follows, a decoder whose window has the encoder's width consumes exactly the code of any XOR and keeps that width in step; with the encoder's own window it returns the value exactly when the XOR is zero, lies in the open window or is at least 2^32 |
| CodecProofs.ReusesNumeric | backend/compression/compression.go:229-233 | the window is reused exactly when the XOR is below 2^(64 - leading) and a multiple of 2^(64 - leading - width) |
| CodecProofs.XORLayout | backend/compression/compression.go:217-245 | the code of every XOR bit by bit: one bit for no change, a tag and the window field when the change lies in the window, otherwise a tag, the leading zeros modulo 32, the width less one and the meaningful bits |
| CodecImpl.WriteDoD | backend/compression/compression.go:186-209 | the five-way branch on the int64 magnitude appends the prefix code of the delta of delta |
| CodecImpl.WriteXOR | backend/compression/compression.go:217-245 | appends the code of the XOR and returns the next window; in numbers, one bit and the old window for no change, two bits more than the window and the old window when the XOR is below 2^(64 - leading) and a multiple of the lowest bit of the window, and otherwise 13 bits more than its own width, which becomes the window |
| CodecImpl.Encode | backend/compression/compression.go:133-183 | the loop with running delta and window produces the two packed streams that the results below speak about |
| CodecImpl.ReadDoD | backend/compression/compression.go:320-367 | the imperative reader consumes and returns what the stream function does, truncation included |
| CodecImpl.ReadXOR | backend/compression/compression.go:375-419 | same for a value code and its window |
| CodecImpl.DecodeStreams | backend/compression/compression.go:251-318 | interleaved reading of the two streams equals parsing each on its own; any missing bit in either is a truncation error |
| CodecTheorems.RoundTrip | backend/compression/compression.go:133-318 | for every input, decoding never fails and returns as many points, and returns them bit for bit if and only if every wrapping delta of delta from the third point on fits int32 and every XOR is zero, lies in the open window (in numbers) or is at least 2^32; timestamps and values come back each exactly on its own half of that condition, and the first point always |
| CodecTheorems.StreamLayout | backend/compression/compression.go:133-183 | the streams begin with the first timestamp, the first difference modulo 2^64 and the first value as 64-bit fields, and go on with one code per item |
| CodecTheorems.CursorAgreement | backend/compression/compression.go:251-419 | for every input, in range or not, the decoder consumes exactly the bits written and leaves fewer than eight padding bits in each stream |
| CodecTheorems.TruncationDetected | backend/compression/compression.go:79-102 | any strict byte prefix of either stream of a nonempty input is reported as truncated, whatever the other stream holds |
| CodecTheorems.SizeBounds | backend/compression/compression.go:104-245 | both streams lie between their best and worst bit lengths, and reach the best exactly for evenly spaced times and for constant values |
| ChunkFile.BuildHeader | backend/persistence/store.go:170-176 | filling the 29 bytes by offset gives the header fields in order |
| ChunkFile.BuildChunk | backend/persistence/store.go:161-182 | filling the payload buffer by offset and appending it and the checksum to the header gives the chunk layout |
| ChunkFile.ChunkRoundTrip | backend/persistence/store.go:259-300 | reading the bytes of a chunk returns as many points, and the same ones exactly on the codec's domain, timestamps and values each for itself |
| ChunkFile.HeaderRoundTrip | backend/persistence/store.go:434-448 | a header scan of a chunk finds its first time, last time and count |
| ChunkFile.ChunkLayout | backend/persistence/store.go:161-182 | magic, version, count, first and last time, lengths, streams and checksum, each at its offset |
| ChunkFile.ReadOutcome | backend/persistence/store.go:259-300 | each outcome of a read exactly: too short below 33 bytes, bad magic, no points for a zero count, a checksum mismatch |
| ChunkFile.ReadOnlyChecked | backend/persistence/store.go:259-300 | points come back only from a file with the magic and the checksum of everything before it |
| ChunkFile.OneByteDetected | backend/persistence/store.go:279-285 | changing any one byte of a readable chunk outside magic, count and length makes reading it a checksum mismatch |
| ChunkFile.CrcBitLaws | backend/persistence/store.go:179 | the register step halves even numbers, takes 1 to the generator polynomial, and is linear |
| ChunkFile.CrcOfOnes | backend/persistence/store.go:179 | the checksums of nothing and of four bytes 0xFF |
| ChunkFile.LengthsFitBound | backend/persistence/store.go:162-176 | counts and lengths fit their 32-bit fields for every buffer of up to 300 million points |
| Wal.RecordRoundTrip | backend/persistence/wal.go:48-50 | a log record is the timestamp and then the value, eight big-endian bytes each, and reads back as its point |
| Words.BigEndianByte | backend/persistence/wal.go:48-50 | byte i of n is the value divided by 256^(n - 1 - i), modulo 256 |
| Wal.RecoverWAL | backend/persistence/wal.go:72-101 | the replay loop returns every whole record in order and stops at a torn one |
| Wal.TornTailDropped | backend/persistence/wal.go:86-98 | a log followed by a torn record replays to exactly the points before it |
| Wal.TornAppendDropped | backend/persistence/wal.go:86-98 | tearing an append to a log in whole records, after any number of bytes, changes nothing in what replay returns |
| Wal.AppendSafeIffAligned | backend/persistence/wal.go:35-57 | an append adds exactly its point to what replay returns, for every point, if and only if the log ends on a record boundary |
| IndexFile.WriteIndexText | backend/persistence/store.go:306-310 | the builder loop prints one line per entry, in order |
| IndexFile.LoadIndexText | backend/persistence/store.go:390-414 | the scanning loop returns the entries of the nonblank lines, or an error when any line is malformed or 64 KiB long or a number too large |
| IndexFile.LoadsExactly | backend/persistence/store.go:390-414 | a text loads if and only if no line is too long and none is bad: one bad line makes loading fail |
| IndexFile.ParsesExactly | backend/persistence/store.go:399-408 | a line is an entry exactly when it has four fields and the last three are decimal numbers below 2^64, 2^64 and 2^32 |
| IndexFile.TrimmedExactly | backend/persistence/store.go:395 | trimming takes white space off both ends and nothing else |
| IndexFile.ScansExactly | backend/persistence/store.go:393-414 | the scanner gives up exactly on a line of 65,536 bytes or more |
| IndexFile.IndexRoundTrip | backend/persistence/store.go:305-415 | loading printed entries gives them back, for all 64-bit times, 32-bit counts and generated names |
| IndexFile.MatchGenerated | backend/persistence/store.go:330 | the file-name pattern captures the id of a generated name up to 9999 and matches none beyond |
| IndexFile.MatchesExactly | backend/persistence/store.go:330 | the file-name pattern matches exactly the names generated for ids up to 9999, and captures the id |
| IndexFile.ChunkNameInjective | backend/persistence/store.go:191 | different ids give different file names |
| StoreImpl.SeriesStore.constructor | backend/persistence/store.go:345-379 | opening takes the index from `index.dat` if that loads, leaving the directory alone, and otherwise from a header scan; the next id from the names and the buffer from the log; and is one opening event of the machine |
| StoreImpl.SeriesStore.WritePoint | backend/persistence/store.go:122-138 | every call is a crash-free run of the machine that submits this point; it succeeds, and acknowledges it, exactly when no disk operation but a truncation fails; then the point joins the buffer if that stays below 10,000 points and a span of 7,200 seconds, and otherwise all of it becomes one indexed chunk; on failure the index is unchanged and the point is either both logged and buffered or neither |
| StoreImpl.SeriesStore.FlushSeries | backend/persistence/store.go:460-465 | a run of the machine that submits and acknowledges nothing; it succeeds exactly when no disk operation but a truncation fails, and then a nonempty buffer has become one indexed chunk |
| StoreImpl.SeriesStore.RotateLocked | backend/persistence/store.go:155-240 | from the start of a rotation, the disk operations in this order with these bytes are machine steps, and the caller's point is acknowledged exactly on success; on failure buffer and index are unchanged |
| StoreImpl.SeriesStore.WriteTemp | backend/persistence/store.go:193-207 | creation and writing of a temporary file are two machine steps, each of which may fail |
| StoreImpl.SeriesStore.ReplaceFile | backend/persistence/store.go:191-211 | the chunk gets its final name only when complete |
| StoreImpl.SeriesStore.ReplaceIndex | backend/persistence/store.go:213-235 | index publication and buffer clearing happen together or not at all |
| StoreImpl.SeriesStore.LoadEntries | backend/persistence/store.go:352-360 | the entries come from `index.dat` when it loads and from a header scan otherwise |
| StoreImpl.SeriesStore.RewriteIndexFile | backend/persistence/store.go:305-328 | a rewrite replaces `index.dat` as a whole or leaves it alone |
| StoreImpl.ScanChunkHeaders | backend/persistence/store.go:417-453 | in any directory order, exactly one entry per readable chunk header, sorted by start time |
| StoreImpl.LargestID | backend/persistence/store.go:362-372 | the loop finds the largest id among the entries whose names match |
| StoreSteps.MaxIDExactly | backend/persistence/store.go:362-372 | it is the id of some entry, and no entry has a larger one |
| StoreSteps.InvRun | backend/persistence/store.go:122-240 | in every state of every run with safe rotations, whatever becomes of the log, chunk files are whole and `index.dat`, memory index and chunks agree, or would after any opening |
| StoreDurability.DurableRun | backend/persistence/store.go:122-240 | in every state of every run within the assumptions, torn appends included, chunks and log together have every logged point as often as it was logged, under whatever index an opening may find, and only submitted points |
| StoreTheorems.NoAcknowledgedPointLost | backend/persistence/store.go:74-240 | over every run with failures, crashes between and inside disk operations, log appends torn after any number of bytes, and reopenings, as long as nothing is appended behind a torn record: a running store holds every acknowledged point at least as often as it was acknowledged, and nothing that was not submitted, whatever the codec makes of its buffers; it shows exactly what it holds if and only if every indexed chunk was written from a buffer in the codec's domain, and no acknowledged timestamp is missing as long as the timestamps alone are in range |
| StoreTheorems.CanOpen | backend/persistence/store.go:334-381 | a crashed store can always be opened |
| StoreTheorems.StoredOnce | backend/persistence/store.go:209-239 | without failed operations and outside two crash windows, crashes included, the acknowledged points are a subsequence of the points held, and these a subsequence of the submitted ones: in order, and no more often; the points shown are these if and only if the codec restores every indexed chunk |
| StoreDoubling.DoublesExactlyInWindows | backend/persistence/store.go:209-239 | in every run without failures that has not doubled points yet: after any crash, torn log appends included, any deaths while opening and a successful opening, the store shows exactly what was visible, and the record the crash let complete, if and only if the crash fell outside the two windows; inside them it shows strictly more |
| StoreLimits.CrashBeforeTruncationDoubles | backend/persistence/store.go:209-239 | a run reaches the first window: a point submitted once is stored twice after a crash between the rename of `index.dat` and the log truncation |
| StoreLimits.CrashBeforeFirstIndexDoubles | backend/persistence/store.go:209-229 | a run reaches the second: a crash between the first chunk rename and the first `index.dat` |
| StoreTheorems.CrashFreeOrder | backend/persistence/store.go:122-240 | without crashes, whatever fails and whatever the log holds, the buffers the indexed chunks were written from, followed by the buffer, are exactly the logged writes in order; what the store shows is as long, and is these writes if and only if every indexed chunk was written from a buffer in the codec's domain, timestamps and values each for themselves |
| StoreTheorems.UnbrokenRun | backend/persistence/store.go:122-240 | from any point of any run on until the next crash, whatever fails, the store appends exactly the logged writes to what it holds, its index only grows, and the files of indexed chunks are untouched |
| StoreTheorems.AckedAreLogged | backend/persistence/store.go:122-138 | in every run, with no assumption, the acknowledged writes are a subsequence of the logged ones |
| StoreCalm.CalmRefinement | backend/persistence/store.go:122-240 | without crashes and whatever fails, the store holds the logged writes in order, and shows them if and only if the codec restores every indexed chunk; outside truncation the log holds exactly the buffer as long as failed appends leave nothing and truncations succeed; between calls the buffer has fewer than 10,000 points and spans less than 7,200 seconds as long as rotations succeed |
| StoreCalm.AcknowledgedBelowLimits | backend/persistence/store.go:122-151 | in every run, with no assumption, an acknowledgement and the end of a flush leave fewer than 10,000 points in the buffer, less than 7,200 seconds apart in int64 arithmetic |
| StoreCalm.RotatesOnlyAtLimits | backend/persistence/store.go:122-151 | from any state, a log append starts a rotation exactly when the buffer with the new point has 10,000 points or spans 7,200 seconds, and otherwise acknowledges the point |
| StoreCalm.RebuildAgrees | backend/persistence/store.go:334-456 | without crashes and rotation errors, with chunk ids up to 9999, failed and torn log operations and lossy rotations included, every header scan finds exactly the entries of the index and of `index.dat`, the same list when start times increase, and the next id names no indexed chunk |
| StoreLimits.SafeExactlyToFourDigits | backend/persistence/store.go:330-372 | runs whose rotations are in the codec's domain and use chunk ids up to a limit never lose an acknowledged point if and only if the limit is at most 9999 |
| StoreLimits.TenThousandChunksLose | backend/persistence/store.go:363-370 | a run of ten thousand chunks, a crash and one more rotation overwrites an acknowledged point |
| StoreTornLog.SafeExactlyUntorn | backend/persistence/wal.go:35-101 | runs whose rotations are in the codec's domain and whose interrupted log appends leave these numbers of bytes, with appends, crashes and openings to follow, never lose an acknowledged point if and only if none of the numbers is from 1 to 15 |
| StoreTornLog.TornRecordLoses | backend/persistence/wal.go:35-101 | for every length of the torn part, a run in which a point acknowledged behind it becomes unreadable |
| StoreRotation.RotationKeepsExactly | backend/persistence/store.go:155-240 | after every run, crashes, failures and lossy rotations included, a rotation that goes through leaves what the store holds unchanged, and what it shows if and only if the buffer lies in the codec's domain; it shows as many points in any case |
| StoreRotation.TwoPointsKeptExactly | backend/persistence/store.go:155-240 | for any two points written to a new store and flushed without any failure, whether the second write or the flush rotates them, nothing acknowledged is lost if and only if their values are equal or differ in one of the upper 32 bits |
| RawQuery.FindChunks | backend/persistence/store.go:246-256 | the names of exactly the entries whose range meets the query, in index order |
| RawQuery.FilterInPlace | backend/rollup/engine.go:276-283 | writing over the front of the same array leaves exactly the points in range, in order |
| RawQuery.FilterExactly | backend/rollup/engine.go:276-283 | the filtered points are a subsequence of all, with every point with start <= ts <= end as often as before and no other |
| RawQuery.ReadRaw | backend/rollup/engine.go:259-283 | pruned and unreadable chunks skipped, buffer appended, filter applied |
| RawQuery.RawExactIffSpanned | backend/persistence/store.go:246-256 | raw queries of every range return exactly the shown points in that range, in order, if and only if every chunk's points lie between the times of its index entry |
| RawQuery.IndexDescribesChunks | backend/persistence/store.go:220-225 | in every run, crashes, reopenings and lossy rotations included, an index entry names a chunk with points and records the first time, the last time and the length of the buffer it was written from; a reader gets as many points, always the first of them, and this buffer exactly in the codec's domain |
| RawQuery.RawQueryExactly | backend/rollup/engine.go:259-283 | in every run, crashes, failures and lossy rotations included, raw queries of every range return exactly the shown points in range, in order, if and only if no indexed chunk reads back a point outside the time of its first one and the last time written |
| RawQuery.RawQueryIsFilter | backend/rollup/engine.go:259-283 | in every crash-free run with nondecreasing timestamps, whatever fails, raw queries of every range return exactly the logged writes in range, in order, if and only if every indexed chunk was written from a buffer in the codec's domain |
| Snapshots.AppendKeeps | backend/persistence/store.go:226 | appending in place to the longest slice of a backing array changes no shorter slice |
| Snapshots.PublishedEntries | backend/persistence/store.go:214-233 | a swap adds one entry to its own series and keeps the lists of all others |
| Snapshots.InvRun | backend/persistence/store.go:214-240 | over every interleaving, the published chunks and the buffer of every series are its writes in order, and every reader's partial result is what its snapshot says |
| SnapshotTheorems.SnapshotImmutable | backend/persistence/store.go:95-106 | a loaded snapshot reads the same at any later time although appends share its arrays, and every later index extends it for every series |
| SnapshotTheorems.NoUpdateLost | backend/persistence/store.go:214-234 | however rotations of different series interleave, the index lists for each series exactly what that series published |
| SnapshotTheorems.QueryAgainstRotation | backend/rollup/engine.go:259-283 | for any timestamps, a query returns, filtered and in order, the writes indexed at its index load except in pruned chunks and those not indexed at its buffer copy, and misses exactly the pruned chunks and the writes rotated in between |
| SnapshotTheorems.QueryAtMostOnce | backend/rollup/engine.go:259-283 | for any timestamps, no write is returned more often than it was written, and every write in range is returned, in order, if and only if no pruned chunk and no chunk rotated in between holds one |
| SnapshotTheorems.QueryInTimeOrder | backend/rollup/engine.go:259-283 | with nondecreasing timestamps pruning drops nothing: every write in range is returned if and only if none was rotated between the two reads, so always when no rotation of that series completed in between |
| Stores.Store.GetSeriesState | backend/persistence/store.go:110-117 | the write path of the series, or a new one on an empty directory; no other series changes |
| Stores.Store.WritePoint | backend/persistence/store.go:122-138 | exactly when no disk operation of the series but a truncation fails, one point is acknowledged for it; every other series keeps its files, index, buffer and acknowledged points; a write that fails leaves the index, adds the point to the buffer exactly when it was logged, and so to what is shown |
| Rollup.Engine.constructor | backend/rollup/engine.go:97-103 | a new engine over an opened store is at the start of every series' history |
| Rollup.Engine.WritePoint | backend/rollup/engine.go:107-115 | exactly when the store acknowledges the point, the number its bit pattern stands for becomes one sample of its series and of no other; the samples of every series remain exactly the points its store acknowledged in the engine's lifetime; a write that fails after it was logged is in the buffer and is no sample |
| Floats.FloatSign | backend/persistence/wal.go:48-50 | the top bit of a pattern is the sign of its number |
| Floats.FloatOne | backend/persistence/wal.go:48-50 | the patterns of zero and one |
| Floats.FloatNext | backend/persistence/wal.go:48-50 | consecutive finite patterns are one unit in the last place apart: 2^-1074 at first, doubling with the exponent |
| Floats.FloatDoubles | backend/persistence/wal.go:48-50 | one more in the exponent field doubles a normal number |
| Floats.FloatIncreases | backend/persistence/wal.go:48-50 | the finite numbers from zero on are in the order of their patterns |
| Rollup.Engine.UpdateAccumulator | backend/rollup/engine.go:119-156 | closing the old hour and accumulating into the new one, for this series only |
| Rollup.WindowsContain | backend/rollup/engine.go:120 | the hour of a time starts at a multiple of 3,600 seconds and contains it, and so does its day at a multiple of 86,400 |
| Rollup.Engine.FlushAll | backend/rollup/engine.go:161-181 | in any map order, every series' open hour is closed once |
| Rollup.Engine.MaybeFinalizeDailyRecord | backend/rollup/engine.go:200-237 | appends to the daily file at most, and only after the day's last hour was closed as its 24th record |
| Rollup.Summarize | backend/rollup/engine.go:209-229 | the loop over the hours computes count, weighted mean, minimum and maximum |
| Rollup.Engine.ReadHourlyRecordsForDay | backend/rollup/engine.go:312-324 | both filters, with uint64 wrap-around |
| Rollup.Engine.Query | backend/rollup/engine.go:242-284 | the tier by signed width with fall-through, and the records or points of that tier |
| RollupTheorems.Conservation | backend/rollup/engine.go:119-181 | for any order of timestamps, any interleaving, any flushes and any set of hour windows, counts, sums, minima and maxima of the written records and the open hour are those of all samples in these windows |
| RollupTheorems.AggregateMeans | backend/rollup/engine.go:148-155 | the aggregate of selected samples is their number, sum, least and greatest value |
| RollupTheorems.AcknowledgedConserved | backend/rollup/engine.go:107-181 | so records and open hour of an engine aggregate exactly the points its store acknowledged in the engine's lifetime |
| RollupTiers.TiersAgreeExactly | backend/rollup/engine.go:107-115 | for a series first written in the engine's lifetime, in a crash-free store whose chunks the codec restores: over every set of hour windows the records and the open hour aggregate exactly the points shown, if and only if every logged write was acknowledged |
| RollupLimits.ConservedExactlyToCount | backend/rollup/engine.go:60-155 | conservation holds in all runs with at most so many samples per hour if and only if that number is below 2^32 |
| RollupLimits.DailyExactlyToCount | backend/rollup/engine.go:209-229 | daily records are exact in all runs with at most so many samples per day if and only if that number is below 2^32 |
| RollupDaily.HourlyIsOfDay | backend/rollup/engine.go:293-324 | for a whole day, the two filters together select exactly the records of that day |
| RollupDaily.DailyOnce | backend/rollup/engine.go:200-237 | for any arrival order and flushes, no day gets two daily records |
| RollupDaily.DailyExact | backend/rollup/engine.go:200-237 | every daily record has the exact count, mean, minimum and maximum of all samples its day had when the event that closed its last hour as the 24th record wrote it |
| RollupOrdered.DailyInOrder | backend/rollup/engine.go:119-237 | for samples in time order and no flush, a day has a daily record if and only if each of its 24 hours has a sample and a later day has begun |
| RollupOrdered.DailyWholeDay | backend/rollup/engine.go:200-237 | such a record aggregates every sample its day ever gets |
| RollupQueries.SelectedExactly | backend/rollup/engine.go:305 | the record filter selects exactly the hours that meet the range, for all ranges, if and only if the hour ends below 2^64 |
| RollupQueries.HourlyTier | backend/rollup/engine.go:252-257 | an hourly query returns exactly the selected records, and their counts are those of all samples in the selected hours less the samples still open |
| RollupQueries.WidthExactly | backend/rollup/engine.go:243 | the signed width passes a threshold exactly when the unsigned distance does and is below 2^63 |
| RollupQueries.TierChosen | backend/rollup/engine.go:242-284 | the daily tier answers exactly ranges of two days or more that select a daily record, the hourly tier exactly the remaining ranges of three hours or more that select an hourly one, with exactly the selected records |
| RollupQueries.InvertedRangeIsEmpty | backend/rollup/engine.go:242-284 | every range that ends before it starts gives no points, also when its signed width wraps to a large positive number and the rollup tiers are consulted |
| RollupQueries.ShortRangeIsExact | backend/rollup/engine.go:242-284 | a query of less than three hours, on a crash-free store with nondecreasing timestamps and chunks in the codec's domain, returns exactly the writes in range, whatever the rollup files hold |
| RollupFile.ReadRecords | backend/rollup/engine.go:293-310 | reads the records of a file in order, and fails exactly when its size is not whole records |
| RollupFile.FileRoundTrip | backend/rollup/engine.go:33-51 | appended records read back as exactly those records |
| RollupFile.RecordRoundTrip | backend/rollup/engine.go:33-51 | a record has window start, average, minimum, maximum and count at their offsets and reads back |
| WebSocket.WsConn.ReadFull | backend/server/websocket.go:43-46 | fills the whole buffer, or consumes what is left and reports a clean or unexpected end |
| WebSocket.WsConn.ReadFrame | backend/server/websocket.go:42-98 | parses one frame of any length form, echoes a close, closes the connection on an oversized frame |
| WebSocket.UnmaskInPlace | backend/server/websocket.go:94-98 | bit j of every byte i is inverted in place exactly where bit j of key byte i mod 4 is set |
| WebSocket.MaskTwice | backend/server/websocket.go:94-98 | unmasking undoes masking |
| WebSocket.MaskedExactly | backend/server/websocket.go:94-98 | masked bytes are exactly those whose bit j of byte i differs from the payload where bit j of key byte i mod 4 is set |
| WebSocket.WsConn.Fetch | backend/server/websocket.go:41-115 | frames are handled, pings answered and empty frames skipped until data is at hand |
| WebSocket.WsConn.Read | backend/server/websocket.go:40-120 | the caller gets the first bytes of the data at hand, the rest stays, and the buffer is otherwise unchanged |
| WebSocket.WsConn.Send | backend/server/websocket.go:144-152 | all bytes go out, or a part of them and an error is reported |
| WebSocket.WsConn.Write | backend/server/websocket.go:123-154 | success sends exactly one unmasked text frame and reports its length; failure reports 0 and has sent a prefix of that frame |
| WebSocketTheorems.FrameRoundTrip | backend/server/websocket.go:42-98 | whatever bytes are a frame by section 5.2 of RFC 6455 on the wire, in any length form, with the payload masked bit by bit by section 5.3 or not, parse back to opcode and payload and leave what follows, exactly when the payload is at most 2^20 bytes |
| WebSocketTheorems.LengthLayout | backend/server/websocket.go:128-142 | the length field: seven bits up to 125, else 126 and two bytes up to 65535, else 127 and eight bytes, most significant first |
| WebSocketTheorems.WriteRoundTrip | backend/server/websocket.go:123-154 | what `Write` sends is the final, unmasked text frame of its argument in the shortest length form, first byte 0x81, and parses back to it up to 2^20 bytes and is refused beyond |
| WebSocketTheorems.PongRoundTrip | backend/server/websocket.go:100-108 | the reply to a ping of at most 125 bytes is the final, unmasked pong frame with the same payload, first byte 0x8A |
| WebSocketTheorems.FrameEffect | backend/server/websocket.go:100-115 | one frame of opcode 9 is answered by a pong with its payload, an empty one of another opcode is skipped, and any other is data ended by a newline |
| WebSocketTheorems.StreamLaw | backend/server/websocket.go:41-115 | a stream of text, binary and ping frames holds its payloads in order, each nonempty one ending in a newline, and owes one pong per ping |
| WebSocketTheorems.ReadsDeliver | backend/server/websocket.go:117-119 | any sequence of nonempty reads returns a prefix of what the input holds, all of it after enough reads, and has sent exactly the replies owed for the input consumed |
| WebSocketTheorems.StreamDelivered | backend/server/websocket.go:40-120 | for any proper frames followed by anything and any buffer sizes, the reads return the lines in order and answer each ping once |
| WebSocketTheorems.Endings | backend/server/websocket.go:52-60 | after a close frame or the end of the stream nothing more is delivered, and the close is echoed; a stream that ends inside a header ends unexpectedly |

## Left out

- The web front end, REST handlers, CORS, CSV and JSON export, TCP accept loops and the command text layer: plumbing around the engine.
- Polling and synthetic data, alerts, the subscriber broker and the benchmark: they would only add easy members.
- `GetAllSeriesMeta` and compression-ratio figures: reporting.
- The WebSocket opening handshake, fragmented messages (the reader treats every frame as a message) and control frames over 125 bytes, whose pong has a truncated length byte.
- WebSocket.WsConn.Fetch: failing replies are not modelled; pongs and close echoes always reach the output, as the source ignores their errors. What a read does after the connection was closed for an oversized frame is modelled as reading on.
- The strength of the checksum beyond single bytes: any one changed byte is detected (`ChunkFile.OneByteDetected`), and nothing is claimed about several.
- Directory fsync, reordering of disk operations, file permissions and causes of errors: an operation succeeds, fails or is cut short.
- Read errors while opening: a file that exists can be read. The source ignores an error from `RecoverWAL` (`backend/persistence/store.go:375`), and an unreadable chunk header is skipped.
- ReadChunk: a file shorter than its header says makes the source panic, which is the outcome `Panic` here; no complete chunk file has it.
- LengthsFit: buffers whose encoded payload reaches 4 GiB are excluded, because the length fields would wrap.
- The walk over all series' directories when the store opens: `rebuildIndex` treats each on its own, and the opening of one is modelled (`StoreImpl.SeriesStore.constructor`).
- AppendHeap: how much a growing Go slice over-allocates is arbitrary; only that a full array is copied matters.
- Snapshots: chunk files are their points there and failures of log appends are left out; the byte formats and failures are in the store machine. The chunk id is unbounded within one lifetime.
- Quotient: a mean over a count that wrapped to zero is an infinity or NaN in the source and 0 here; the results exclude such counts.
- FloatValue: infinities and NaNs, which no real is, read as 0. Rounding of floating-point sums and averages is left out: aggregates are reals, and `RollupFile` treats the stored averages as bit patterns.
- Rollup state across a crash: accumulators are not rebuilt from the log, so results concern one lifetime; failed appends to rollup files are ignored by the source and excluded.
- Coverage of the daily and hourly tiers: the planner takes any nonempty result and the daily filter reuses the width of an hour, so no such guarantee holds; `RollupQueries.TierChosen` says what does.
