# disktest core in Dafny

A model of the core of `disktest`, a hard-drive tester. The tester writes a
pseudo-random byte stream to a device or file and later reads it back,
comparing every byte with the regenerated stream. The stream is produced by
`N` generator threads. A round-robin aggregator interleaves their output
chunk by chunk: global chunk `g` is local chunk `g / N` of thread `g % N`.
Buffers of consumed chunks go back to a per-thread recycling cache.

The project has four modules, one per source file plus shared types:

- `Bytes` (`bytes.dfy`) holds the shared value types. These are `byte`,
  `u32`, `Result`, `Option`, and `Status`, the outcome of a call that may
  panic.
- `BufferCache` (`bufcache.dfy`) models `BufCache` and `BufCacheCons`. Each
  consumer id owns a FIFO queue of spare buffers, held in a `map` field that
  the methods reassign. `Pull` takes the oldest buffer, or an empty one, and
  resizes it with zero padding. `Push` to an unknown id is a panic.
- `StreamAggregator` (`stream_aggregator.dfy`) models `DtStreamAgg`.
  - The class keeps the streams and the cursor, plus a ghost `position`: the
    global index of the next chunk. Its invariant says the whole rotating
    state is a function of `position` (`ViewAt`).
  - `activate` aligns the byte offset down to a chunk boundary. It points
    the cursor at the owning stream and restarts each stream at its first
    chunk at or after that point.
  - `get_chunk` and `wait_chunk` deliver global chunks in order.
  - A delivered chunk carries the cursor value after the advance. Dropping
    the chunk therefore recycles its buffer into the next stream's queue.
    The model keeps this behaviour.
- `DiskTest` (`disktest.dfy`) models `Disktest::write` and
  `Disktest::verify` over a file modelled as a byte sequence with a cursor.
  - `write` stops on the byte limit, ENOSPC (a success), another write error,
    or an abort seen after a full round. The stored bytes are always the
    stream's prefix, placed at `seek`.
  - `verify` gathers possibly short reads into a chunk-sized buffer. It
    compares each full buffer, or the partial one at end of file, with the
    next chunk. It reports the lowest differing offset, or the number of
    bytes checked.
  - The round trip (`WriteThenVerify`) and tamper detection
    (`TamperDetected`) are proved over the clean outcome `CleanVerify`.

The environment becomes explicit parameters:
- the generator is a function `gen(thread, local_chunk)` whose chunks all
  have the chunk size;
- the outcome of write call `k` comes from a map, and calls without an entry
  succeed;
- the behaviour of read call `k` comes from a map, and calls without an entry
  read all they ask for;
- the abort flag seen after step `k` is `k in abort`;
- the CPU count is a number.

## Model

| member | source | states |
|---|---|---|
| BufferCache.Resize | src/bufcache.rs:67-69 | the result has exactly the requested length, keeps the buffer's bytes that fit and pads the rest with zeros |
| BufferCache.PushQueue | src/bufcache.rs:45-54 | pushing to a registered id appends the buffer to that id's queue; the other queues and the set of ids are unchanged |
| BufferCache.PullQueue | src/bufcache.rs:62-71 | a pull yields a buffer of exactly the requested length; on an empty queue it is all zeros and nothing changes; otherwise it is the oldest buffer resized, and that buffer leaves the queue; other ids are untouched |
| BufferCache.PushAllAppends | src/bufcache.rs:45-54 | a series of pushes appends the buffers in order to that id's queue and to no other |
| BufferCache.PullManyFifo | src/bufcache.rs:62-71 | `n` pulls return the `n` oldest queued buffers, oldest first, each resized, and remove exactly those |
| BufferCache.PushThenPull | src/bufcache.rs:78-104 | buffers pushed to an empty queue come back from pulls in push order, resized, and the queue is empty again |
| BufferCache.BufCache.constructor | src/bufcache.rs:32-37 | a new cache has no consumers |
| BufferCache.BufCache.NewConsumer | src/bufcache.rs:39-43 | registers the id with a fresh empty queue and returns its receiving end |
| BufferCache.BufCache.Push | src/bufcache.rs:45-54 | panics exactly when the id is not registered (state unchanged); otherwise the queues become `PushQueue` of the old ones |
| BufferCache.BufCacheCons.Pull | src/bufcache.rs:62-71 | the returned buffer and the new queues are those of `PullQueue` on the old queues |
| StreamAggregator.PlaceOf | src/stream_aggregator.rs:109-121 | the thread that serves global chunk `g` is below the thread count |
| StreamAggregator.PlaceIsDivMod | src/stream_aggregator.rs:109-110 | global chunk `g` is local chunk `g / n` of thread `g % n` |
| StreamAggregator.ServedOnce | src/stream_aggregator.rs:139-154 | two global chunks have the same place if and only if they are the same chunk, so no chunk is served twice |
| StreamAggregator.PlaceOfServed | src/stream_aggregator.rs:113-121 | local chunk `m` of thread `i` is global chunk `m * n + i` |
| StreamAggregator.ModSucc | src/stream_aggregator.rs:142 | the cursor step `(c + 1) % n` moves to the next stream and wraps to 0 after the last |
| StreamAggregator.PlaceSucc | src/stream_aggregator.rs:139-154 | the global chunk after `g` comes from the next thread in the same round, or from thread 0 in the next round |
| StreamAggregator.AlignDown | src/stream_aggregator.rs:96-108 | the aligned offset is a multiple of the chunk size, at most the offset and less than a chunk below it; an aligned offset is kept |
| StreamAggregator.AlignDownIsLargest | src/stream_aggregator.rs:96-108 | no multiple of the chunk size that is at most the offset lies above the aligned offset |
| StreamAggregator.ServedFrom | src/stream_aggregator.rs:113-121 | stream `i` reaches local chunk `m` exactly when global chunk `m * n + i` lies at or after the resume point (both directions) |
| StreamAggregator.FirstLocalIsFirstServed | src/stream_aggregator.rs:113-121 | the chunk each stream restarts at is the first global chunk at or after the resume point that it owns, and its previous chunk lies before the resume point |
| StreamAggregator.ThreadOffset | src/stream_aggregator.rs:113-121 | the byte offset handed to stream `i` is a chunk boundary whose chunk index is the first local chunk that stream owns at or after the resume point |
| StreamAggregator.FirstLocalSucc | src/stream_aggregator.rs:139-154 | moving the resume point one chunk on advances only the stream that owns the old chunk, and moves the cursor to the next stream |
| StreamAggregator.StepViewAt | src/stream_aggregator.rs:139-154 | delivering one chunk from the state at `g` yields exactly the state at `g + 1` |
| StreamAggregator.StepsViewAt | src/stream_aggregator.rs:156-167 | resuming at `g` and then delivering `k` chunks gives the same state as resuming at `g + k` |
| StreamAggregator.DeliveredInOrder | src/stream_aggregator.rs:241-263 | after resuming at global chunk `g`, the `j`-th delivered chunk is global chunk `g + j`: every chunk is delivered once, in order, by the stream that owns it |
| StreamAggregator.Drop | src/stream_aggregator.rs:46-53 | dropping a chunk pushes its buffer to the cache under its thread id, and panics when that id is not registered |
| StreamAggregator.DtStreamAgg.constructor | src/stream_aggregator.rs:64-88 | a stopped aggregator with `num_threads` idle streams with ids `0 .. n - 1`, each registered with an empty queue in a new shared cache |
| StreamAggregator.DtStreamAgg.ChunkSize | src/stream_aggregator.rs:134-136 | the chunk size is positive and every chunk of every stream has that size |
| StreamAggregator.DtStreamAgg.Activate | src/stream_aggregator.rs:91-127 | returns the offset aligned down to a chunk boundary; the aggregator becomes active at the chunk there, with the cursor on the owning stream and every stream at its first chunk at or after that point |
| StreamAggregator.DtStreamAgg.GetChunk | src/stream_aggregator.rs:139-154 | stopped or pending: `Ok(None)` and no change; a thread error is returned with no change; otherwise the next global chunk, tagged with the advanced cursor, with the position advanced by one |
| StreamAggregator.DtStreamAgg.WaitChunk | src/stream_aggregator.rs:156-167 | panics when stopped; otherwise returns the next global chunk, of the chunk size, and advances by one |
| DiskTest.ChunkStartIsProduct | src/disktest.rs:105-107 | chunk `k` starts at byte `k * cs` of the stream |
| DiskTest.StreamByteIsChunkByte | src/disktest.rs:88-122 | stream byte `j` is byte `j % cs` of local chunk `j / cs / n` of thread `j / cs % n` |
| DiskTest.PrefixExtend | src/disktest.rs:94-107 | the first `k` chunks followed by a prefix of chunk `k` form the stream prefix of that length |
| DiskTest.WriteChunkStored | src/disktest.rs:88-111 | writing the stored part of chunk `k` right after the first `k` chunks extends the stream image in the file by those bytes |
| DiskTest.Overwrite | src/disktest.rs:94 | writing at a position replaces exactly the bytes it covers, keeps the others, fills a gap past the end with zeros, and an empty write changes nothing |
| DiskTest.OverwriteAppend | src/disktest.rs:88-111 | two writes back to back equal one write of both buffers |
| DiskTest.StoredBytes | src/disktest.rs:94-103 | a write never stores more than its length, and a write without a fault stores all of it |
| DiskTest.ReadCount | src/disktest.rs:151-153 | a read returns at most what was asked for and what is left; it returns 0 exactly at end of file or for an empty request; an unrestricted read returns the minimum of the two |
| DiskTest.DiskFile.Seek | src/disktest.rs:83 | moves the cursor to the offset and leaves the contents alone |
| DiskTest.DiskFile.WriteAll | src/disktest.rs:94-103 | the bytes before the fault are written at the cursor and the cursor moves past them; the result is success, no space, or another error as the fault says |
| DiskTest.DiskFile.Read | src/disktest.rs:151 | a failed read changes nothing; otherwise it fills `ReadCount` bytes of the buffer slice from the cursor, leaves the rest of the buffer alone, and advances the cursor |
| DiskTest.ThreadCount | src/disktest.rs:58 | a thread count of 0 means one thread per CPU; any other count is kept |
| DiskTest.WriteOutcome | src/disktest.rs:88-122 | one round of the write loop: ENOSPC ends it as a success with the bytes counted before; another error fails it; reaching the limit succeeds with all bytes counted; an abort with bytes still to go fails it; only a full clean chunk continues, and it counts `cs` more bytes with fewer left; each of these causes forces its outcome |
| DiskTest.WriteRunBounds | src/disktest.rs:75-124 | a write pass stores no more than it was asked for, counts only stored bytes on success, and fails only with a write error or an abort |
| DiskTest.WriteRunClean | src/disktest.rs:224-225 | without faults or aborts a write pass stores and returns exactly the requested number of bytes |
| DiskTest.WriteRunSkipsCleanRounds | src/disktest.rs:88-122 | rounds without a fault or an abort, with more than a chunk still to write, each write one full chunk and let the pass go on |
| DiskTest.WriteRunFirstEvent | src/disktest.rs:88-122 | the first round that meets ENOSPC, another write error, the byte limit or an abort decides the whole pass: ENOSPC returns the full chunks before it, an error fails, the limit returns all bytes, an abort fails |
| DiskTest.FirstDiff | src/disktest.rs:160-164 | the two sequences agree below the result, and differ at it unless it is their length |
| DiskTest.ChunkDiff | src/disktest.rs:160-164 | the first `count` buffered file bytes agree with the chunk below the result, and differ at it unless it is `count` |
| DiskTest.ChunkDiffIs | src/disktest.rs:160-164 | an index below which the bytes agree and at which they differ (or `count`) is the one the comparison finds |
| DiskTest.CleanVerifyMatch | src/disktest.rs:131-201 | when every examined byte matches the stream, verify returns `min(m, size - seek)` |
| DiskTest.CleanVerifyMismatch | src/disktest.rs:160-164 | when byte `j` differs and the bytes before it match, verify reports a mismatch at `j` |
| DiskTest.VerifiedAll | src/disktest.rs:168-187 | a pass that stops at the byte limit or at end of file, with all bytes so far matching, reports the bytes read |
| DiskTest.ChunkMatches | src/disktest.rs:157-169 | a buffer that agrees with chunk `c` extends the verified stream prefix by its bytes |
| DiskTest.ChunkMismatch | src/disktest.rs:157-165 | the first byte of chunk `c` that differs, after a matching prefix, is the offset verify reports |
| DiskTest.CleanVerifyMeaning | src/disktest.rs:131-201 | `Ok(v)` means `v = min(m, size - seek)` bytes all matched; a mismatch at `j` means byte `j` differs, lies in range, and every byte before it matches |
| DiskTest.WriteThenVerify | src/disktest.rs:224-244 | after a clean write of `w` bytes, verify of `m` bytes returns `min(m, w)` when the old file ended within the write or `m <= w` |
| DiskTest.TamperDetected | src/disktest.rs:246-255 | changing a written byte `j` to another value makes a verify pass covering it report a mismatch at exactly `j` |
| DiskTest.CompareRound | src/disktest.rs:157-181 | the comparison of a full (or end-of-file) buffer: an abort always stops the pass; the only errors are a mismatch and an abort; going on means a full chunk was checked, the next chunk is current and the buffer is empty |
| DiskTest.AfterRead | src/disktest.rs:152-197 | a round after a read of `got` bytes: an abort always stops the pass; the only errors are a mismatch and an abort; going on means the read returned bytes, they are all accounted for, and the pass stays at the chunk or moves one chunk on |
| DiskTest.VerifyOutcome | src/disktest.rs:149-198 | one round of the verify loop: a read error happens exactly when the read fails and reports the checked bytes; an abort after a successful read always stops the pass; other errors are mismatches; going on keeps the counters consistent and leaves strictly fewer bytes of the file to read |
| DiskTest.VerifyOutcomeRead | src/disktest.rs:151-191 | after a successful read of `got` bytes the round compares when the buffer is full or the file ended, stops at end of file, stops on an abort, or reads again |
| DiskTest.CompareRoundAt | src/disktest.rs:157-181 | the comparison stops at the first difference with its offset, stops with the count at the limit or at end of file, and otherwise goes on to the next chunk with a full chunk counted |
| DiskTest.CompareRoundFound | src/disktest.rs:157-181 | a buffer that agrees with the chunk up to index `i` and differs there (or has length `i`) has the comparison outcome determined by `i` |
| DiskTest.CompareRoundMismatch | src/disktest.rs:160-164 | a difference the comparison finds is the mismatch a clean verify pass reports |
| DiskTest.CompareRoundMatch | src/disktest.rs:166-181 | a buffer that matches its chunk extends the checked prefix: a count at the limit or at end of file is the clean outcome, and going on keeps every checked byte matching |
| DiskTest.CompareRoundMeaning | src/disktest.rs:157-181 | whatever the comparison finds, a count or a mismatch is the clean verify outcome, and going on keeps every checked byte matching |
| DiskTest.VerifyOutcomeMeaning | src/disktest.rs:149-198 | a round that stops with a count or a mismatch gives the clean verify outcome, and a round that goes on keeps every checked byte matching |
| DiskTest.VerifyRunMeaning | src/disktest.rs:131-201 | a whole verify pass: a count or a mismatch is the clean outcome, a read error comes from a read that failed, and an abort from an abort flag that was set |
| DiskTest.VerifyRunClean | src/disktest.rs:131-201 | without failed reads and aborts a verify pass returns the clean outcome |
| DiskTest.Disktest.constructor | src/disktest.rs:44-65 | the aggregator is new and stopped, with the given thread count or one thread per CPU when that count is 0 |
| DiskTest.Disktest.WriteChunk | src/disktest.rs:90-103 | takes the next chunk, cuts it to `min(chunk size, bytes left)` and writes it; the file gets the stored prefix at the cursor |
| DiskTest.Disktest.WriteStep | src/disktest.rs:88-122 | one loop round ends or continues exactly as `WriteOutcome` says, and the file holds the stream prefix including the bytes stored in this round |
| DiskTest.Disktest.Write | src/disktest.rs:75-124 | the result is the outcome of `WriteRun`; the file holds the old contents with the stream's prefix of the stored length placed at `seek`, and the cursor sits after it |
| DiskTest.Disktest.CompareStep | src/disktest.rs:157-181 | waits for the next chunk, compares the buffer with it byte by byte and ends or goes on exactly as `CompareRound` says |
| DiskTest.Disktest.AfterReadStep | src/disktest.rs:152-197 | after a read of `got` bytes, ends the round or goes on exactly as `AfterRead` says, with the buffer still holding the unchecked bytes |
| DiskTest.Disktest.ReadRound | src/disktest.rs:151-153 | a failed read is an error; otherwise it reads `ReadCount` bytes behind the buffered ones, which the buffer then holds, and moves the cursor past them |
| DiskTest.Disktest.VerifyStep | src/disktest.rs:149-198 | a failed read ends the round with a read error at the checked bytes; an abort after a successful read ends it; otherwise the round ends or goes on exactly as `VerifyOutcome` says; a count or a mismatch is the clean verify outcome; an unfinished round keeps the scan invariant and moves the file cursor on |
| DiskTest.Disktest.VerifyLoop | src/disktest.rs:149-198 | the loop's result is the one `VerifyRun` gives from the first read on |
| DiskTest.Disktest.Verify | src/disktest.rs:131-201 | the file is unchanged; the result is the one `VerifyRun` gives; a success or a mismatch is the clean verify outcome; a read error needs a failed read and an abort needs a set abort flag; without read failures and aborts the result is the clean outcome |

## Left out

- Threads, channels, `Rc`/`RefCell` sharing and atomics are not modelled. The
  generator threads become a deterministic function `gen(thread, chunk)`,
  and each channel becomes a FIFO sequence.
- Generator byte values (ChaCha, CRC) and the statistical tests on them are
  left out. `gen` is arbitrary except for the chunk length.
- Signal handling through `signal_hook` is not modelled. The abort flag read
  after step `k` is the parameter `k in abort`.
- `num_cpus::get()` is replaced by the parameter `cpus`.
- `sync_all` in `write_finalize` and its error are not modelled. The model's
  write pass ends where the source would sync.
- A failure of `seek` is not modelled: the model's `Seek` always succeeds.
- The mapping of OS error codes is reduced to ENOSPC versus any other error.
- Progress output (`println!`, `LOGTHRES` logging) and the unaligned-offset
  warning are left out.
- The warning that `BufCache::push` prints when a send fails is left out,
  because a model queue cannot fail to receive. So is the quiet level that
  gates that warning.
- `wait_chunk`'s one-millisecond sleep between polls is not modelled.
  `WaitChunk` takes a poll that delivers, so a thread error while waiting is
  not modelled either. `GetChunk` models all three poll results.
- DtStreamAgg.Activate: a failure of a stream's `activate` is not modelled,
  so the method always succeeds.
- Re-registering a consumer id leaves the old receiver orphaned in the
  source. The model gives the id a fresh empty queue instead.
- Integer widths (`u64` counters, `usize`) are unbounded here. Overflow is
  not reachable for real device sizes.
- `DtStream::new` is not part of this model (`src/stream.rs` holds an
  earlier revision). The model assumes that creating stream `i` registers
  consumer id `i` with the shared cache.
- `disktest.rs` calls a revision of `activate` that takes no offset. This is
  modelled as `Activate(0)`, a restart at the first chunk.
- The bodies of the write and verify loops are split into helper methods so
  that each proof stays small: `WriteChunk`, `WriteStep`, `ReadRound`,
  `AfterReadStep`, `CompareStep`, `VerifyStep` and `VerifyLoop`. Their
  statements follow the source's order.
- DiskTest.Disktest.Verify: the text of an error (the read error's OS
  message, the "Data MISMATCH" wording) is not modelled. A read error
  carries the checked byte count (`bytes_read`) and a mismatch its offset.
- StreamAggregator.DtStreamAgg.constructor: the `assert!` on the thread
  count (a panic for 0 or more than 65536 threads) is modelled as a
  precondition, so the panic itself is not modelled.
- DiskTest.Disktest.constructor: it passes the same thread-count bound on
  to the aggregator as a precondition, so a count the aggregator would
  reject with a panic is excluded rather than modelled.
