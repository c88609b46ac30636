# Verified models of 3FS client protocols

This project models the parts of the 3FS client in which correctness depends on the interplay of several functions, and
proves what they promise together.

- **The USRBIO ring** (`AvailSlots`, `RingPositions`, `Ring`, `RingSystem`, `RingInvariant`, `RingCompletion`,
  `RingClaims`). One generator, any number of io workers and one reaper work on a shared ring. The ring object is a class;
  the threads are the steps of a state machine over it, down to the single completion posted, and the results hold in
  every reachable state of every interleaving.
- **Chunked file I/O** (`Chunks`, `ChunkSplit`, `Stitch`, `StitchRead`, `StitchTally`, `StitchBatch`, `StitchStrict`,
  `StitchErrors`, `PioRead`, `PioBatch`, `PioStrict`, `ChunkWrite`, `PioWrite`, `PioWriteBatch`, `PioVector`). A byte range
  is split into pieces of chunks, the pieces run against a chunk store, and their results are stitched together with hole
  handling. The top results are about files: what a read reports and delivers, and what a write leaves behind.
- **The write-back buffer** (`WriteBack`). A file with a buffer in front of it, on top of the executor and the store; the
  invariant says that the user's file is the stored one with the buffered bytes written over it, and any sequence of
  operations is proved to act like direct ones.
- **Parquet rows of serde objects** (`Serde`, `SerdeRoundTrip`, `SerdeVisitors`). Schema, writer and reader are three
  traversals of the same universe of types.
- **Update channels and retries** (`Channels`, `RetryRun`, `RetryInvariant`, `RetryLoop`). The allocator and the retry loop
  are classes; concurrent batches are a state machine.
- **Sync versions of an open file** (`SyncVersions`), **batch planning** (`Batching`, `Grouping`), **paged removal**
  (`Paging`), **split reads and the overlap check** (`SplitRead`), **probing for the primary management server** (`Probe`)
  and **load-balanced target selection** (`LoadBalance`).

Methods follow the source's loops and in-place updates and are proved against functions of the old state; the lemmas are
about those functions. Error codes, limits and suffixes are the source's.

Where the code does not do what its comments or names suggest, the code is modelled, the failing case is given as a
lemma with a concrete input, and the exact condition is proved:

- Stitching the results of a batch keeps the state of an open hole from one request to the next. A request whose first chunk
  is missing takes that hole over (`StitchBatch.TakesOverAHole`), and a request that had already failed can report bytes
  (`StitchBatch.FailedRequestReportsBytes`); `StitchBatch.BatchCounts` and, in terms of files, `PioBatch.ReadCounts` say
  exactly when a request is reported right. A single read is always right (`PioBatch.SingleRead`), and so are reads that
  refuse holes (`PioStrict.StrictReads`).
- When a piece of a read fails behind an open hole and a later piece returns data, the size of the hole is added to the
  negative error code (`StitchErrors.ErrorTurnsIntoCount`); `StitchErrors.ErrorKeptIff` and
  `StitchErrors.NegativeKeptIff` give the exact conditions for the reports on the way, `StitchErrors.FinalReportIff` and
  `StitchErrors.BatchFailureIff` for the final one.
- A split read of no bytes has no pieces and its result stays unset (`SplitRead.SplitIsInvisible`).
- A row with an unnamed enumerator, or an `Expected` whose error has the code OK, does not read back
  (`SerdeRoundTrip.UnnamedEnumeratorIsLost`, `SerdeRoundTrip.ErrorWithCodeOkIsLost`); `SerdeRoundTrip.RoundTrip` says exactly
  which values do.
- The batching loop can emit an empty first batch (`Batching.EmptyFirstBatch`), exactly when `Batching.EmptyBatchIff` says.
- The overlap check accepts an empty range at the start of another one in one order of the sort and not in the other
  (`SplitRead.TieOrderMatters`, `SplitRead.SeparateIff`).
- With a negative io depth and a positive timeout a partial batch is always held back, because the last check time is
  assigned just before it is tested; `Ring.JobSize` models that.

Environment: answers of servers, random orders and starts, hash-map iteration orders and clock readings are parameters or
arbitrary choices. `Shuffle`, the order of written pieces, the starts of a selection and the answers of a probed server are
such choices.

## Model

| member | source | states |
|---|---|---|
| AvailSlots.AllocIsFresh | src/common/utils/AtomicSharedPtrTable.h:12-27 | an index handed out was not live before, is live after, and every other index keeps its state; None only when all indices are live |
| AvailSlots.DeallocFreesOne | src/common/utils/AtomicSharedPtrTable.h:28-42 | giving back a live index makes exactly that one available again and keeps the table valid; the walk back never moves past it |
| AvailSlots.SlotTable.Alloc | src/common/utils/AtomicSharedPtrTable.h:12-27 | the method on the table in place does what the pure step says |
| AvailSlots.SlotTable.Dealloc | src/common/utils/AtomicSharedPtrTable.h:28-42 | the walk-back loop on the table in place does what the pure step says |
| RingPositions.SlotDistance | src/fuse/IoRing.h:122-122 | the modular head-tail difference is the distance of the unbounded positions when they are less than a turn apart |
| RingPositions.SlotFull | src/fuse/IoRing.h:133-137 | the modular fullness test holds exactly when one slot is left |
| Ring.IoRing.constructor | src/fuse/IoRing.h:133-146 | a new ring: markers at zero, no claimed and no done tails |
| Ring.IoRing.AddSqe | src/fuse/IoRing.h:133-146 | refuses exactly when full; otherwise fills the head slot and then publishes it, and changes nothing else |
| Ring.IoRing.AddCqe | src/fuse/IoRing.h:190-203 | the same for completion entries |
| Ring.IoRing.JobsToProc | src/fuse/IoRing.cc:15-65 | the claiming loop in every depth mode yields the jobs and the ring of the pure claim |
| Ring.IoRing.CopySqes | src/fuse/IoRing.cc:225-228 | the copy is the claimed slots, in order and around the end of the ring |
| Ring.IoRing.Finish | src/fuse/IoRing.cc:233-257 | retiring tails in place does what the pure step says, and fails exactly where the source aborts |
| Ring.IoRing.CompleteJob | src/fuse/IoRing.cc:230-269 | the locked completion section in place does what the pure step says, and fails exactly where the source aborts |
| RingInvariant.ClaimJobsKeeps | src/fuse/IoRing.cc:15-65 | claiming keeps the ring invariant under every depth mode |
| RingInvariant.ReservationCovers | src/fuse/IoRing.cc:22-60 | completions owed and those not reaped fit the ring, and whenever a worker can claim, its reservation covers everything submitted |
| RingInvariant.CopyIsAccepted | src/fuse/IoRing.cc:225-228 | what a worker copies out of its claimed slots is what the generator submitted there |
| RingInvariant.PublishKeeps | src/lib/api/UsrbIo.cc:654-662 | publishing an entry keeps the invariant |
| RingInvariant.ReleaseKeeps | src/lib/api/UsrbIo.cc:716-731 | giving back the index of a reaped completion keeps the invariant |
| RingCompletion.RetireKeeps | src/fuse/IoRing.cc:238-257 | out-of-order recording leaves the tail at the end of the longest recorded prefix |
| RingCompletion.BeginCompleteKeeps | src/fuse/IoRing.cc:230-257 | recording the tail of any copied job, in any order, keeps the invariant and reaches no abort |
| RingCompletion.PostNextKeeps | src/fuse/IoRing.cc:259-266 | posting one completion, with generator and reaper moving before and after it, keeps the invariant and is never refused |
| RingCompletion.EndCompleteKeeps | src/fuse/IoRing.cc:268-269 | counting the job off keeps the invariant |
| RingCompletion.SectionIsComplete | src/fuse/IoRing.cc:230-269 | these steps in a row, without interruption, are the locked section of the ring object |
| RingCompletion.StepKeeps | src/fuse/IoRing.cc:15-269 | every step of generator, workers and reaper keeps the invariant, with the completion section split into its steps |
| RingCompletion.RingIsSafe | src/fuse/IoRing.cc:22-60 | in every reachable state, also inside a completion section: no abort was taken, completions owed plus unreaped ones are at most entries - 1 and outside the section processing counts exactly those owed, at most one worker is inside, and the submission tail is the end of the longest recorded prefix of jobs in claim order |
| RingCompletion.NeverStuck | src/fuse/IoRing.cc:230-269 | in every reachable state every thread that is in the middle of something can go on |
| RingCompletion.ExactlyOneCompletion | src/fuse/IoRing.cc:259-268 | in every reachable state an accepted entry has exactly one completion if its worker has posted it and none otherwise; the ring holds exactly the completions posted and not reaped, in order, and each of them, like each reaped one, carries the index, userdata and result of its entry |
| RingCompletion.ClaimsDisjoint | src/fuse/IoRing.cc:223-228 | in every reachable state the ranges of any two jobs are disjoint, in claim order |
| RingCompletion.ClaimIntact | src/fuse/IoRing.cc:223-228 | in every reachable state, and for every claimed job, what it is about to copy is what was accepted |
| RingCompletion.ArgsIntact | src/lib/api/UsrbIo.cc:647-653 | in every reachable state the io arguments of a claimed entry whose completion is not posted are those its generator wrote |
| RingClaims.ClaimSizes | src/fuse/IoRing.cc:23-60 | the claim loop in every depth mode: each job is a full batch or the rest that may not wait, and what stays unclaimed although more jobs are allowed is less than a batch, or nothing when partial batches are not held back |
| RingClaims.ClaimsWhatItMay | src/fuse/IoRing.cc:15-65 | so it is for every claim in every reachable state in which a worker can claim: room for completions never holds it back |
| RingCompletion.TailsAreDistinct | src/fuse/IoRing.cc:54-63 | in every reachable state unretired claimed tails are pairwise distinct slots |
| RingCompletion.DoneTailsAreClaimed | src/fuse/IoRing.cc:238-257 | in every reachable state every tail marked done is an unretired claimed one, and never the first of them |
| ChunkSplit.SplitCovers | src/fuse/PioV.cc:98-130 | a split covers the range and its buffer in order and without gaps, each piece inside one chunk, up to the first chunk that cannot be addressed and whatever the piece limit, and returns the error of that chunk |
| ChunkSplit.AddressableIs | src/fbs/meta/Schema.cc:61-90 | every position before that chunk can be addressed |
| ChunkSplit.SplitFailsIff | src/fbs/meta/Schema.cc:61-90 | the split fails exactly when some chunk of the range cannot be addressed; an empty range still needs the chunk at its offset |
| ChunkSplit.ConsumeChunk | src/fuse/PioV.cc:122-124 | the inner loop yields the pieces of one chunk |
| ChunkSplit.ChunkIo | src/fuse/PioV.cc:98-130 | the outer loop yields the split, with the pieces found before an error |
| Stitch.Memset | src/fuse/PioV.cc:228-231 | zeroes exactly the given addresses |
| Stitch.FillHoleInPlace | src/fuse/PioV.cc:226-231 | zeroes the tail of the first piece of a hole and every piece up to the current one |
| Stitch.AbsorbResult | src/fuse/PioV.cc:197-250 | the first half of a turn on the arrays is the pure one |
| Stitch.ConcatIoRes | src/fuse/PioV.cc:185-266 | the loop on the result and buffer arrays computes the pure scan |
| StitchRead.RequestScanned | src/fuse/PioV.cc:193-266 | after any number of pieces of a request: the count is the reach plus an inherited hole, and the open hole is what lies behind the reach |
| StitchRead.FailedScanned | src/fuse/PioV.cc:193-266 | the same for a request that had failed before the scan: its error stays, or data behind an inherited hole adds the size of the hole to it and the scan goes on from there |
| StitchRead.OwnScanned | src/fuse/PioV.cc:226-263 | byte by byte in the buffer of a request: holes before the reach are zero, the rest is untouched, and exactly what lies behind the reach would be zeroed next |
| StitchRead.ForeignScanned | src/fuse/PioV.cc:226-231 | a byte outside the pieces changes only if it lies in the open hole and data arrives |
| StitchTally.ScanTallies | src/fuse/PioV.cc:185-266 | for any outcomes of the pieces, failed ones included, the scan of a request comes to two numbers, result and open hole, that pieces move by a simple rule |
| StitchBatch.BatchCounts | src/fuse/PioV.cc:185-266 | for reads that may find holes, in any batch and whatever pieces or requests failed: every request reports its tally; if no piece of it failed, that is the distance to the last byte read, or the earlier error, if and only if the request does not take over a hole before data |
| StitchBatch.CarriedIff | src/fuse/PioV.cc:256-263 | when no request failed so far, a hole is carried over exactly when the last piece came up short |
| StitchBatch.BatchBytes | src/fuse/PioV.cc:226-231 | every request that did not fail, whatever the others did: bytes before the last one read are those read, or zero in a hole; the rest of its buffer is untouched if no later request takes over a hole |
| StitchBatch.TakesOverAHole | src/fuse/PioV.cc:239-242 | a concrete batch in which a request reports five bytes for four |
| StitchBatch.FailedRequestReportsBytes | src/fuse/PioV.cc:232-232 | a concrete batch in which a request that failed before the scan reports 1997 bytes |
| StitchStrict.StrictResults | src/fuse/PioV.cc:185-266 | with holes forbidden or for writes, in any batch: the result is negative if and only if the request failed before the scan, a piece failed or data came after a gap, and otherwise the bytes up to the last one transferred; the buffers are untouched |
| StitchStrict.NoHoleInside | src/fuse/PioV.cc:185-266 | a request that did not fail transferred every byte it reports |
| StitchStrict.NegativeStays | src/fuse/PioV.cc:233-254 | with holes forbidden or for writes a negative result, preset or not, stays negative through any number of pieces: it is the same one or says that data came after a hole |
| StitchStrict.RefusedIff | src/fuse/PioV.cc:233-235 | a read in which no piece failed is refused if and only if a byte before its last one is missing |
| StitchErrors.ErrorKeptIff | src/fuse/PioV.cc:225-254 | with holes allowed, the first failed piece stays reported through all later pieces if and only if no hole was open before it or no later piece returned data |
| StitchErrors.NegativeKeptIff | src/fuse/PioV.cc:232-254 | the reports through all later pieces stay negative if and only if, failing that, the hole is smaller than the error code; the hole is given by the pieces and the hole open before the request |
| StitchErrors.FinalReportIff | src/fuse/PioV.cc:225-263 | what a request with one failed piece reports in the end: its error if and only if no hole was open or no data followed, and an error at all if and only if, failing that, the hole is smaller than the code |
| StitchErrors.BatchFailureIff | src/fuse/PioV.cc:185-266 | the same for a request of any batch, whatever the other requests did |
| StitchErrors.SingleNegativeIff | src/fuse/PioV.cc:232-263 | for a batch of one request: the report stays negative if and only if the piece before the failure was complete, no later piece returned data, or the gap behind the last byte read is smaller than the error code |
| StitchErrors.SingleReportIff | src/fuse/PioV.cc:225-263 | for a batch of one request with one failed piece: the final report is its error, and is negative, exactly under these conditions |
| StitchErrors.ErrorTurnsIntoCount | src/fuse/PioV.cc:232-232 | a concrete failed read that reports 999 bytes |
| PioRead.BatchRead | src/client/storage/StorageClientInMem.cc:50-81 | the loop returns the pure results and memory, and fails exactly when a piece is on a faulty chain |
| PioRead.PieceReads | src/client/storage/StorageClientInMem.cc:71-77 | a piece returns exactly the stored bytes of its range, which are a prefix of it |
| PioBatch.ReadCounts | src/fuse/PioV.cc:14-53 | split, store and stitch together, for any batch, any piece limits, and whatever lookups fail or chunks cannot be addressed: a request reports its error, or the distance to the last stored byte of its range, if and only if it does not inherit a hole; otherwise the size of the hole is added |
| PioBatch.HoleBehindIff | src/fuse/PioV.cc:239-263 | when no earlier request failed, a hole is open exactly when the last earlier request that asked for bytes ended in a hole or past the end of its file |
| PioBatch.ReadBytesRight | src/fuse/PioV.cc:185-266 | for every request that did not fail, whatever others inherit: each byte before the last stored one is the stored one, or zero in a hole; the rest of its buffer is untouched if no later request inherits a hole |
| PioBatch.SingleRead | src/fuse/PioV.cc:14-53 | a single read always refines the flat sparse file: error or count, and bytes |
| PioStrict.StrictReads | src/fuse/PioV.cc:185-266 | with holes refused, for any batch: a request with a hole before its last stored byte is refused, every other one reports the distance to that byte, and one that failed before reports an error |
| PioStrict.StrictBytes | src/fuse/PioV.cc:185-266 | and the buffer of a request holds the stored bytes of its range and is untouched elsewhere |
| ChunkWrite.WritesCommute | src/client/storage/StorageClientInMem.cc:103-135 | two writes that do not overlap commute, also when the store refuses one of them |
| ChunkWrite.AnyOrder | src/client/storage/StorageClientInMem.cc:83-97 | the store after a batch does not depend on the order in which its pieces are written |
| PioWrite.PieceWritten | src/client/storage/StorageClientInMem.cc:118-131 | where the chunk takes writes, a piece shows as its bytes, zero from the end of the chunk up to it, and nothing else; elsewhere the file is as it was |
| PioWrite.ViewAppend | src/client/storage/StorageClientInMem.cc:125-128 | writing two adjacent ranges one after the other shows as writing them at once |
| PioWriteBatch.PiecedCompatible | src/fuse/PioV.cc:55-96 | the pieces of requests for different files or separate ranges never overlap |
| PioWriteBatch.WriteCounts | src/fuse/PioV.cc:268-274 | a write reports its whole length when every chunk of its range takes writes and an error otherwise, also when it failed before |
| PioWriteBatch.BatchWritten | src/fuse/PioV.cc:55-96 | whatever order the pieces are written in and whatever chunks refuse them: where a file takes writes it shows as if the requests had been written whole, one after the other, each up to the first chunk that cannot be addressed; elsewhere it is as it was |
| PioWriteBatch.WriteThenRead | src/fuse/PioV.cc:14-96 | reading back a written range returns it, in whatever order the pieces were written and whatever the piece limits |
| PioVector.Shuffle | src/client/storage/StorageClientInMem.cc:32-42 | any order it returns has every index exactly once |
| PioVector.MemStorage.Write | src/client/storage/StorageClientInMem.cc:103-135 | the update of the chunk map in place is the pure write, with its three error cases |
| PioVector.MemStorage.BatchWrite | src/client/storage/StorageClientInMem.cc:83-97 | every piece gets the outcome it would get alone, and the store is that of writing them in order |
| PioVector.PioV.AddRead | src/fuse/PioV.cc:14-53 | adds the pieces of the split, also those found before an error; refuses mixing; reports a non-file |
| PioVector.PioV.AddWrite | src/fuse/PioV.cc:55-96 | the same for writes |
| PioVector.PioV.ExecuteRead | src/fuse/PioV.cc:132-140 | results and memory of the batch; fails exactly on a faulty chain |
| PioVector.PioV.ExecuteWrite | src/fuse/PioV.cc:142-183 | results and store of the batch |
| PioVector.PioV.FinishIo | src/fuse/PioV.cc:268-274 | stitches reads with the hole flag given, writes with holes forbidden |
| PioVector.ProcessReads | src/fuse/IoRing.cc:119-207 | a batch of reads end to end, with failed lookups of files and buffers: the outcome the read theorems describe, with holes allowed or refused, or an error for every request when the execution failed |
| PioVector.ProcessWrites | src/fuse/IoRing.cc:119-207 | a batch of writes end to end: the outcome and the store the write theorems describe |
| WriteBack.WriteOnce | src/fuse/FuseOps.cc:450-484 | one turn of the flush loop succeeds exactly when the range can be flushed, and then the store shows the data written over it; otherwise the data shows in the chunks that take writes, or not at all when a chunk cannot be addressed |
| WriteBack.FlushBuf | src/fuse/FuseOps.cc:424-491 | the flush loop does the same for the whole range |
| WriteBack.ReadOnce | src/fuse/FuseOps.cc:1527-1542 | a read through its own executor succeeds exactly when every chunk of the range can be addressed and its chain answers, and then returns the distance to the last stored byte and the bytes |
| WriteBack.CachedFile.constructor | src/fuse/FuseClients.h:60-65 | at first the user sees the stored file |
| WriteBack.CachedFile.Flush | src/fuse/FuseOps.cc:1489-1496 | writes out the buffer without changing what the user sees; fails exactly when the range cannot be flushed, and then the user sees the buffered bytes exactly where the chunks took them |
| WriteBack.CachedFile.WriteDirect | src/fuse/FuseOps.cc:1596-1634 | flushes, then writes through: the user sees the data applied directly; succeeds exactly when both ranges can be flushed, and when only the second is refused the user sees the data where the chunks took it |
| WriteBack.CachedFile.Append | src/fuse/FuseOps.cc:1669-1672 | bytes appended to the buffer show as applied directly |
| WriteBack.CachedFile.Place | src/fuse/FuseOps.cc:1663-1665 | an empty buffer may be placed anywhere |
| WriteBack.CachedFile.AppendSpilling | src/fuse/FuseOps.cc:1669-1682 | one turn of the copy loop shows as the piece written directly, also when the buffer becomes full and is flushed; fails exactly when the full buffer cannot be flushed |
| WriteBack.CachedFile.BufferAll | src/fuse/FuseOps.cc:1667-1683 | the copy loop with its flushes of a full buffer shows as one direct write, and succeeds exactly when every buffer that becomes full can be flushed |
| WriteBack.CachedFile.WriteBuffered | src/fuse/FuseOps.cc:1651-1693 | a buffered write shows as applied directly; it succeeds exactly when the old buffer can be flushed, if the data does not follow it, and every buffer that becomes full can be flushed |
| WriteBack.CachedFile.Read | src/fuse/FuseOps.cc:1484-1554 | a read delivers the file the user sees, up to its last byte, zeros in holes; it succeeds exactly when the buffer can be flushed and the range can be read |
| WriteBack.RunOp | src/fuse/FuseOps.cc:1484-1693 | each operation, through buffer, executor and store, does to the file what it does without them |
| WriteBack.RunOps | src/fuse/FuseOps.cc:1484-1693 | any sequence of buffered and direct writes, reads and flushes that succeeds leaves the file that applying each write directly gives, every read on the way delivers that file as of then, and the sequence succeeds when the file is available as far as it reaches |
| Serde.DefaultTyped | src/analytics/SerdeObjectVisitor.h:52-64 | value-initialised objects have their type, so inactive alternatives can be written |
| Serde.FilterEach | src/analytics/SerdeSchemaBuilder.h:207-212 | each character is kept or dropped on its own: letters and digits stay, in their order |
| SerdeRoundTrip.WriterColumns | src/analytics/SerdeObjectWriter.h:107-227 | for every type and value, the cells written have the kinds of the columns of the schema, in order |
| SerdeRoundTrip.ReaderColumns | src/analytics/SerdeObjectReader.h:73-230 | reading succeeds if and only if the row starts with the columns of the schema, and consumes exactly those |
| SerdeRoundTrip.ReadWritten | src/analytics/SerdeObjectReader.h:73-230 | reading a written value never fails and yields the described value, whatever follows in the row |
| SerdeRoundTrip.SurvivesIff | src/analytics/SerdeObjectReader.h:82-230 | the value read is the one written if and only if it survives: named enumerators, errors that are errors, conversions and JSON that invert |
| SerdeRoundTrip.RoundTrip | src/analytics/SerdeObjectWriter.h:107-227 | reading a written row back returns the original value if and only if it survives |
| SerdeRoundTrip.UnnamedEnumeratorIsLost | src/analytics/SerdeObjectReader.h:80-91 | an enumerator without a name leaves the variable as it was |
| SerdeRoundTrip.ErrorWithCodeOkIsLost | src/analytics/SerdeObjectReader.h:163-179 | an error with the code OK reads back as a value |
| SerdeVisitors.SchemaBuilder.GetSchema | src/analytics/SerdeSchemaBuilder.h:18-29 | the schema is the columns of the type |
| SerdeVisitors.SchemaBuilder.GetFieldFullName | src/analytics/SerdeSchemaBuilder.h:195-205 | the joined name, with the name stack as before |
| SerdeVisitors.SchemaBuilder.Visit | src/analytics/SerdeSchemaBuilder.h:34-192 | appends the columns of the type and leaves the name stack balanced |
| SerdeVisitors.RowFits | src/analytics/SerdeObjectWriter.h:80-92 | a row fits the schema of its type, so the stream never throws |
| SerdeVisitors.ObjectWriter.Write | src/analytics/SerdeObjectWriter.h:80-92 | appends exactly the encoded row |
| SerdeVisitors.ObjectWriter.Visit | src/analytics/SerdeObjectWriter.h:107-227 | every visit appends the cells of its value to columns of the right kind |
| SerdeVisitors.ObjectReader.Visit | src/analytics/SerdeObjectReader.h:73-230 | every visit consumes and yields what decoding says, or fails with it |
| SerdeVisitors.ObjectReader.Read | src/analytics/SerdeObjectReader.h:45-58 | a row is read if it decodes with no cell left |
| Channels.NoSharing | src/client/storage/UpdateChannelAllocator.cc:21-37 | conserved channels are never held twice and never both held and free |
| Channels.TakeConserves | src/client/storage/UpdateChannelAllocator.cc:39-63 | taking a channel conserves |
| Channels.ReturnConserves | src/client/storage/UpdateChannelAllocator.cc:65-79 | returning a channel conserves |
| Channels.UpdateChannelAllocator.constructor | src/client/storage/UpdateChannelAllocator.cc:12-19 | the stack holds every id, the smallest on top |
| Channels.UpdateChannelAllocator.Allocate | src/client/storage/UpdateChannelAllocator.cc:39-63 | a held channel gets a new sequence number; otherwise the top id, or failure exactly when none is free |
| Channels.UpdateChannelAllocator.Release | src/client/storage/UpdateChannelAllocator.cc:65-79 | the id goes back on the stack; a zero id changes nothing |
| Channels.UpdateChannelAllocator.AllocateForOps | src/client/storage/StorageClientImpl.cc:293-327 | whatever channels other calls hold: succeeds exactly when enough channels are free; kept channels stay; a failed call leaves every channel as it was |
| Channels.UpdateChannelAllocator.ReleaseForOps | src/client/storage/StorageClientImpl.cc:278-292 | returns the channels of the given operations and no others |
| RetryInvariant.StepKeeps | src/client/storage/StorageClientImpl.cc:1143-1300 | every step of any number of batches, replies and give-ups keeps the invariant |
| RetryInvariant.ChannelsConserved | src/client/storage/StorageClientImpl.cc:278-327 | in every reachable state each channel is free or held by exactly one operation |
| RetryInvariant.AllReturned | src/client/storage/StorageClientImpl.cc:1175-1182 | when all operations are finished every channel is free again |
| RetryInvariant.RetriesKeepTheTag | src/client/storage/StorageClientImpl.cc:1885-1887 | two requests on the wire belong to the same operation if and only if they carry the same sequence number, and then the same channel |
| RetryInvariant.SuccessIsLast | src/client/storage/StorageClientImpl.cc:1947-1974 | in every run no request of an operation follows the one that was answered with success |
| RetryLoop.Run.Send | src/client/storage/StorageClientImpl.cc:1947-1974 | one request carries the held channel; success, and nothing else, returns it |
| RetryLoop.Run.SendSequentially | src/client/storage/StorageClientImpl.cc:1927-1990 | exactly the requests up to the first failure go out, in order, each with its channel; the others stay pending with theirs |
| RetryLoop.Run.SendBatch | src/client/storage/StorageClientImpl.cc:1824-1852 | a batch that is outdated, finds too few channels or no node sends nothing, reports which, and leaves its operations pending; otherwise it sends up to the first failure |
| RetryLoop.Run.SettleOne | src/client/storage/StorageClientImpl.cc:1230-1240 | a permanent error returns the channel unless it is retried; everything else but success is tried again |
| RetryLoop.Run.Settle | src/client/storage/StorageClientImpl.cc:1225-1244 | exactly the operations with a retriable outcome remain; permanent errors return their channel |
| RetryLoop.Run.SelectTargets | src/client/storage/StorageClientImpl.cc:489-540 | operations without a target get the error of their selection and stay pending |
| RetryLoop.Run.GiveUp | src/client/storage/StorageClientImpl.cc:1175-1182 | everything pending returns its channel, and what was never tried has timed out |
| RetryLoop.Run.SendOpsWithRetry | src/client/storage/StorageClientImpl.cc:1143-1300 | whatever channels other calls hold, and against any selections, attempts and answers: on exit every operation has returned its channel and has an outcome; it succeeded if and only if one of its requests was answered with success, that request was its last, and all its requests carried one channel |
| SyncVersions.DynamicAttr.constructor | src/fuse/FuseClients.h:109-119 | a file just opened |
| SyncVersions.DynamicAttr.Update | src/fuse/FuseClients.h:81-96 | the update in place is the pure one |
| SyncVersions.DynamicAttr.FinishWrite | src/fuse/FuseOps.cc:2659-2673 | counting a write and merging its length hint in place is the pure step |
| SyncVersions.StepKeeps | src/fuse/FuseOps.cc:517-591 | every interleaving step of writes, syncs, closes and truncates keeps the invariant |
| SyncVersions.VersionsOrdered | src/fuse/FuseOps.cc:525-528 | in every reachable state fsynced <= synced <= written, and no sync aborts |
| SyncVersions.SyncedWasTold | src/fuse/FuseClients.h:81-96 | every write counted as synced was told to the metadata service by a successful call that started after it, with no length or one that covers it |
| SyncVersions.SyncCatchesUp | src/fuse/FuseOps.cc:517-547 | a sync finds every write synced already, or its success counts every write that finished before it started, whatever runs in between |
| SyncVersions.FsyncedWasCalled | src/fuse/FuseOps.cc:549-591 | every write counted as fsynced precedes a successful fsync, close or truncate |
| Batching.BatchesPartition | src/client/storage/StorageClientImpl.cc:1059-1091 | the batches of a node hold its operations in order, none above the limits except a single large one |
| Batching.CutEmpty | src/client/storage/StorageClientImpl.cc:1070-1080 | cutting makes an empty batch if and only if the first operation exceeds its share of bytes and not all operations fit one batch, and then only as the first |
| Batching.EmptyBatchIff | src/client/storage/StorageClientImpl.cc:1059-1091 | so it is for the batches of a node: the first is empty if and only if its first operation is larger than the average and its bytes exceed the limit; no other batch ever is |
| Batching.EmptyFirstBatch | src/client/storage/StorageClientImpl.cc:1070-1080 | nine and three bytes with a limit of ten: the first of three batches is empty |
| Batching.BatchesFewest | src/client/storage/StorageClientImpl.cc:1050-1055 | without payload there are exactly the rounded-up quotient of batches |
| Batching.NoFewer | src/client/storage/StorageClientImpl.cc:1050-1055 | any cut into batches of at most that size has at least the rounded-up quotient of batches |
| Batching.CutBatches | src/client/storage/StorageClientImpl.cc:1059-1091 | the loop computes these batches |
| Grouping.GroupedPartition | src/client/storage/StorageClientImpl.cc:1039-1122 | every operation is in exactly one batch, whatever orders the hash maps list the nodes in and however the batches are shuffled |
| Grouping.GroupedOk | src/client/storage/StorageClientImpl.cc:1039-1122 | a batch goes to the node of its operations, holds only operations with or only without a channel, and the latter keep to the limits |
| Grouping.Distribute | src/client/storage/StorageClientImpl.cc:1039-1048 | operations by node, those with a channel apart, in order |
| Grouping.GroupOpsByNodeId | src/client/storage/StorageClientImpl.cc:1028-1122 | the whole grouping: batches of operations with a channel first, in the order of one hash map, then the others, in the order of the other or shuffled |
| Paging.Chain.DoQuery | src/client/storage/StorageClientInMem.cc:137-160 | the largest chunks of the range, at most the given number |
| Paging.Chain.ProcessQueryResults | src/client/storage/StorageClientInMem.cc:162-230 | though every page is queried from a map that processing may have changed: exactly the wanted number of largest chunks are processed, and more is reported if and only if the range held more |
| Paging.Chain.RemoveChunks | src/client/storage/StorageClientInMem.cc:275-306 | removes exactly the min(N, count) largest chunks and reports their number |
| Paging.RemovesTheLargest | src/client/storage/StorageClientInMem.cc:275-306 | chunks outside the range stay, and inside it every removed id is larger than every id that stays |
| SplitRead.SplitsTile | src/client/storage/StorageClientImpl.cc:953-992 | the split pieces cover range and buffer in order, and none crosses a multiple of the limit |
| SplitRead.SplitReadIO | src/client/storage/StorageClientImpl.cc:962-986 | the loop computes them |
| SplitRead.MergeResults | src/client/storage/StorageClientImpl.cc:1607-1633 | the loop returns the first error or the sum |
| SplitRead.SplitIsInvisible | src/client/storage/StorageClientImpl.cc:1607-1633 | splitting and merging gives the unsplit result, whatever the chunk holds, if and only if the read is not empty |
| SplitRead.NeighboursSuffice | src/client/storage/StorageClientImpl.cc:932-944 | after sorting, comparing neighbours compares all pairs |
| SplitRead.ValidateDataRange | src/client/storage/StorageClientImpl.cc:889-951 | accepts exactly when every range is in its buffer and, with the check on, no two share a byte and no empty one is sorted behind a non-empty one at its address; otherwise every operation gets the error |
| SplitRead.SeparateIff | src/client/storage/StorageClientImpl.cc:932-944 | after sorting, neighbours are apart exactly under these conditions |
| SplitRead.TieOrderMatters | src/client/storage/StorageClientImpl.cc:893-895 | two sorts of the same ranges, one accepted and one not |
| Probe.FewerUnprobed | src/client/mgmtd/MgmtdClient.cc:491-514 | the measure by which probing one server ends |
| Probe.Client.TrySwitchProbeTarget | src/client/mgmtd/MgmtdClient.cc:138-168 | what is marked probed and where to go next, for each kind of error |
| Probe.Client.TryAddMgmtd | src/client/mgmtd/MgmtdClient.cc:584-600 | a named server is added with its addresses, or refused when unknown and without any |
| Probe.Client.PickAddr | src/client/mgmtd/MgmtdClient.cc:492-502 | an address that was not probed, or the server is skipped |
| Probe.Client.Attempt | src/client/mgmtd/MgmtdClient.cc:491-514 | one turn of the loop sends only to an address that was not probed, and makes progress |
| Probe.Client.ProbePrimary | src/client/mgmtd/MgmtdClient.cc:480-537 | ends for every sequence of answers; never sends to a probed address; returns a node if and only if the last server asked, at an address mapped to it, named it |
| Probe.Client.Conclude | src/client/mgmtd/MgmtdClient.cc:516-537 | a named primary is returned when the answering address is its own, and probed otherwise |
| Probe.Client.FindPrimary | src/client/mgmtd/MgmtdClient.cc:539-582 | the search over known servers and unknown addresses keeps both |
| LoadBalance.CountingLeastBalances | src/client/storage/TargetSelection.cc:24-39 | counting a least used node keeps all nodes within one of each other |
| LoadBalance.LoadBalanceStrategy.SelectTarget | src/client/storage/TargetSelection.cc:20-42 | selects a least used target whatever the random start and the tie-break counters |
| LoadBalance.LoadBalanceStrategy.SelectMany | src/client/storage/TargetSelection.cc:20-42 | after any number of selections the nodes of the chain are within one of each other |

## Left out

- Multiple reapers on one ring: the completion entry is read again after the tail was advanced, so only one reaper is modelled.
- Memory ordering of the ring's atomics; the claim loop and the recording of a tail, both under the mutex, are single steps; head and tail arithmetic does not overflow.
- The conversion of negative results to errno values when completion entries are posted; results are taken as given.
- PioVector.ProcessWrites: the read-only mode and the begin and end of a write on the inode around the batch (src/fuse/IoRing.cc:95-220) are not modelled; the requests of a batch write different files or separate ranges.
- PioVector.PioV.AddWrite: does not collect the potential file lengths.
- PioVector.PioV.ExecuteWrite: `truncateChunks` before a batch of writes is not modelled; nothing in the client adds such operations.
- StitchErrors.FinalReportIff: a request with several failed pieces is covered by its tally and by `StitchErrors.NegativeKeptIff`, not by a closed form of its final report.
- StitchStrict.StrictResults: for a request that failed before the scan it says that the result is the earlier error or the hole error, not which.
- WriteBack.FlushBuf: the modelled store never writes short, so the loop takes exactly one turn.
- WriteBack.CachedFile.BufferAll: does not describe what the user sees when a flush inside the copy loop fails, beyond the invariant; `WriteBack.CachedFile.Flush` does for a single flush.
- Truncation, stripe extension and the dirty-inode set in the write-back model; the interplay of flushes with sync versions.
- Several open files in the write-back model; files are independent in the chunk store (`PioWrite.OtherFile`).
- WriteBack.RunOps: states a sufficient condition for success; the exact one is stated operation by operation.
- SerdeRoundTrip.RoundTrip: the temporaries of the reader hold the default of their type when nothing is assigned to them; the source leaves an enumerator in them uninitialised or zero.
- Serde types with `serdeTo`/`serdeFrom` members: the reader decodes them through the readable form, unlike the writer.
- Floating-point fields and 64-bit enums in rows; JSON texts are a pair of functions, and the theorem asks them to invert.
- The retry loop's waiting times and the counting of failed targets; reallocation of channels for removals.
- RetryLoop.Run.SendOpsWithRetry: other calls keep the channels they hold while the loop runs; calls that run at once are the state machine of `RetryRun`.
- Reads through the retry loop: they hold no channels.
- RetryInvariant.StepKeeps: sequence numbers are taken in positive amounts; a removal that asks for none is not modelled.
- `queryLastChunk` and `truncateChunks` of the in-memory store, and its injected faults other than faulty chains for reads and writes.
- SplitRead.MergeResults: checksums are not merged.
- Probe.Client.FindPrimary: servers added to the map while it is iterated are not visited; the source's iteration is then not determined. References into the map are ids.
- LoadBalance.LoadBalanceStrategy.SelectTarget: does not say which tie-break counter is raised; the source can raise that of a node it did not select.
- RPC, RDMA, metrics, logging and configuration.
