# QEMU 1.0: state-moving machinery, verified in Dafny

This project models the parts of QEMU that move state from one place to another, and the arithmetic they
rest on, and proves what they promise.

* **RAM migration** (`RamStream`, `RamMigration`, `RamLive`, `RamEndToEnd`): the pre-copy stream of page records,
  its decoder, the circular scan for dirty pages, the stages that use them while the guest goes on writing, and both
  ends together.
* **Block migration** (`BlockStream`, `BlockMigration`, `BlockLive`, `BlockEndToEnd`): bulk, dirty and final phase,
  with reads in flight, a queue of completed reads and a dirty bit per chunk, down to the bytes of the sections.
* **Block layer** (`Iovec`, `MultiwriteMerge`, `MultiwriteCount`, `Commit`, `BlockIo`, `DirtyTracking`):
  merging and counting a batch of writes, committing an overlay, byte access to a sector device, dirty tracking.
* **AES** (`AesTables`, `AesSpec`, `AesTableLaws`, `AesCipher`, `Aes`, `AesKeys`, `AesCbc`): the table-driven cipher of
  FIPS 197 and cipher block chaining, with the standards' own examples worked through (`AesVector`, `AesVector192`,
  `AesVector256`, `AesCbcVector`).
* **Bitmaps** (`Bits`, `Bitmap`): searches and fills a word at a time.
* **Small protocols** (`BufferedFile`, `BottomHalf`, `CoroutineHandoff`) and **calendar time** (`Calendar`).
* `Common` and `Wire` hold what several of these share.

Where the source updates things in place the model is a class or a method over an array, proved against a
specification function or a state machine, and the promises are lemmas about that function or about every run
of that machine. Where the source is a protocol between threads, or between the program and its callbacks, the
model is a state machine over its steps.

What comes from outside is a parameter: answers of the rate limiter and of the backend, which sorted order
qsort picks, allocation answers and failures of a block driver, the driver's opinion on merging over a gap, when
an asynchronous read samples the disk, in which order requests complete and what the guest writes meanwhile, where
malloc puts a node, whether synchronising the dirty bitmap fails, and whether the remaining pages are expected to
fit in the downtime.

Some things the code does differ from what one would expect of it. They are kept as they are, each with a run or an
input that shows it and the exact condition for the expected result:

* `mktimegm` multiplies days by 86400 in a 32-bit int, whatever the width of `time_t`. From 20 January 2038 on, and
  before 14 December 1901, the result is not the seconds since 1970 (`FirstWrongDay`); between them it always is
  (`Mktimegm`).
* `multiwrite_merge` cuts off the tail of a request that reaches further than its successor in sorted order
  (`ContainedTailIsLost`). Merging is right exactly when every byte cut off is written again (`MergeExact`).
* Bulk reads of block migration do not set the in-flight bit, so a dirty-phase read can be overtaken by an older
  one (`BulkReadRace`). Submitting one lets the disks end unequal exactly when a read of the chunk in flight holds a
  stale sample (`DirtyReadExact`); reads that sample on completion never do (`CompletionSamplingNeverStale`).
* The last `flush_blks` may stop at the rate limit, and clean-up drops what is queued (`RateLimitedFlush`). The
  disks are equal exactly when what is dropped was redundant (`StageThreeExact`).
* After a short tail CBC decryption leaves another ivec than encryption (`ShortTailIvsDiffer`), unless the cipher
  maps the padded tail block to itself (`FinalIvAgrees`).
* Switching dirty tracking on while it is on zeroes the counter but keeps the bits (`SwitchedOnTwice`). The counter
  is right exactly when no bit was set at the last switch (`CountExact`).
* A backend answer of 0 is recorded as no error, after which new data can overtake buffered data
  (`ZeroLetsPutOvertake`). Whether a put keeps the order is decided by the answers, the buffer and its bytes
  (`PutInOrder`, in the contract of `Put`).

Two more are stated in contracts alone: an empty zero area is searched for at the next zero bit, although any aligned
place would do (`FindNextZeroArea`), and an empty write can mark a chunk dirty (`TouchesIs`). The comment above
`bdrv_aio_multiwrite` allows some requests to be submitted when -1 is returned; the code returns -1 only when none was
(`AioMultiwrite`).

`dafny verify dfyconfig.toml` checks the whole project.

## Model

| member | source | states |
|---|---|---|
| RamStream.IsDupPage | project/Qemu/src/arch_init.c:97-110 | The word-by-word comparison answers true exactly when every byte of the page is the given byte. |
| RamStream.PageRoundTrip | project/Qemu/src/arch_init.c:136-156 | A page record decodes to the block, offset and contents it was made from, with or without CONTINUE, as a fill byte or as a full page, and leaves the receiver remembering that block. |
| RamStream.PageBytes | project/Qemu/src/arch_init.c:140-156 | The bytes of a page record: offset, 0x20 for CONTINUE, 0x02 for a fill byte or 0x08 for a page in one word, then the name unless CONTINUE is set, then the fill byte or the page. |
| RamStream.PageOutcome | project/Qemu/src/arch_init.c:419-456 | What a page record leads to at any receiver, a missing block or an offset outside it included. |
| RamStream.StartBytes | project/Qemu/src/arch_init.c:291-298 | The bytes of the preamble: the total with 0x04, then name and length of each block. |
| Wire.BigEndian | project/Qemu/src/savevm.c:678-690 | A 64-bit word goes out most significant byte first. |
| RamStream.EosRoundTrip | project/Qemu/src/arch_init.c:338-338 | The end-of-section word ends the section and changes nothing. |
| RamStream.SyncRoundTrip | project/Qemu/src/arch_init.c:397-427 | The list of block ids and lengths is accepted exactly when every listed block is known with that length, the running total wrapping as a 64-bit word. |
| RamStream.StartRoundTrip | project/Qemu/src/arch_init.c:292-298 | The stage-1 preamble is accepted exactly by the destinations whose block list matches, and then leaves their RAM alone. |
| RamStream.LoadOneExtend | project/Qemu/src/arch_init.c:385-464 | Decoding one record looks only at its own bytes: more stream behind it changes nothing but the rest. |
| RamStream.ReplayAppend | project/Qemu/src/arch_init.c:385-466 | Replaying a stream in two pieces is replaying it at once. |
| RamMigration.AdvanceReaches | project/Qemu/src/arch_init.c:161-169 | Going from page to page and from block to block, round at the end of the list, reaches every page, and a full turn comes back to the start. |
| RamMigration.ScanAt | project/Qemu/src/arch_init.c:127-171 | The circular scan stops at the k-th page exactly when that page is dirty and no earlier one is. |
| RamMigration.SaveTargetIsFirstDirty | project/Qemu/src/arch_init.c:115-177 | Nothing is saved exactly when nothing is dirty; otherwise the page saved is the first dirty one in circular order from the last position. |
| RamMigration.ScanGoesOn | project/Qemu/src/arch_init.c:161-171 | A clean page moves the scan on; it is back where it began exactly after a full turn, when nothing is left to save. |
| RamMigration.NullLastStopsAtOnce | project/Qemu/src/arch_init.c:122-171 | While last_block is null every page is dirty, so the scan stops at the first page and the comparison that would read last_block is not reached. |
| RamMigration.SaveBlockEffect | project/Qemu/src/arch_init.c:128-176 | A save with something dirty removes exactly one page from the dirty set and sets last_block; with nothing dirty it changes nothing. |
| RamMigration.BeginEstablishes | project/Qemu/src/arch_init.c:271-299 | After stage 1 the invariant holds exactly when the destination has matching blocks; any other destination rejects the stream. |
| RamMigration.EmitKeeps | project/Qemu/src/arch_init.c:130-158 | One emitted record: the receiver that replays it has the page, remembers the sender's block, and keeps every other clean page. |
| RamMigration.SaveKeeps | project/Qemu/src/arch_init.c:115-177 | Saving a page keeps the invariant: every page that is not migration-dirty equals the page the receiver has built, and both ends remember the same block. |
| RamMigration.GuestWriteKeeps | project/Qemu/src/cpu-all.h:538-548 | A guest write, which sets the dirty flag, keeps the invariant. |
| RamMigration.EndSectionKeeps | project/Qemu/src/arch_init.c:338-338 | Ending a section keeps the invariant. |
| RamMigration.RunKeeps | project/Qemu/src/arch_init.c:253-343 | The invariant holds in every interleaving of guest writes, page saves and section ends. |
| RamMigration.FlushKeeps | project/Qemu/src/arch_init.c:328-336 | The stage-3 flush ends (its measure is the number of dirty pages), keeps the invariant and leaves nothing dirty. |
| RamMigration.MigrationCopiesRam | project/Qemu/src/arch_init.c:253-343 | Whatever the guest did and however the saves were spread over sections, the replayed stream ends in the source's RAM. |
| RamMigration.SectionIsReplay | project/Qemu/src/arch_init.c:375-467 | ram_load called once per section replays the whole stream. |
| RamLive.RamSender.FindDirty | project/Qemu/src/arch_init.c:117-171 | The do-while scan finds the first dirty page of the state machine, or comes back to its start when there is none; last_block is read only when it is not null. |
| RamLive.RamSender.SaveBlockLive | project/Qemu/src/arch_init.c:115-177 | ram_save_block moves exactly as the state machine: it returns 0 and changes nothing when no page is dirty. Otherwise the page saved is the first dirty one from the last position on, it alone becomes clean, and the bytes put are its record: bit 0x20 of the header is set exactly when last_block was this block already, the name follows exactly when it is clear, and the result is 1 for a page of one repeated byte and the page size for another. |
| RamLive.RamSender.PutPage | project/Qemu/src/arch_init.c:136-156 | The pieces put one after the other make up the page record; the result is 1 exactly for a page whose bytes are all equal, else the page size. |
| RamLive.RamSender.SendPage | project/Qemu/src/arch_init.c:128-174 | Cleaning, sending and the two assignments at the end are one save of the state machine; CONTINUE goes out exactly when the block is the last one. |
| RamLive.RamSender.CleanPage | project/Qemu/src/arch_init.c:132-134 | Resetting one page removes exactly its frame from the dirty set. |
| RamLive.RamSender.MaskDirtyRange | project/Qemu/src/cpu-all.h:549-562 | The masking loop clears the migration flag of exactly the pages in range and no other flag. |
| RamLive.RamSender.SaveRemaining | project/Qemu/src/arch_init.c:181-197 | The count is the number of dirty pages. |
| RamLive.RamSender.MarkAllDirty | project/Qemu/src/arch_init.c:278-287 | After the loop every page of every block is dirty; flags of pages already marked, and of frames outside RAM, are as they were. |
| RamLive.RamSender.BeginLive | project/Qemu/src/arch_init.c:271-299 | Stage 1 is the first state of the state machine over the sorted list, which is the old list in ascending order. |
| RamLive.RamSender.PutBlockList | project/Qemu/src/arch_init.c:292-298 | The loop puts the preamble. |
| RamLive.RamSender.SaveUnderLimit | project/Qemu/src/arch_init.c:304-316 | The rate-limited loop saves as long as the rate limiter answers 0, and stops only at another answer, which it returns, or when nothing is dirty; bytes_transferred grows by what the saves put. |
| RamLive.RamSender.FlushLive | project/Qemu/src/arch_init.c:331-335 | The unlimited loop ends with the dirty set empty, in the flushed state; bytes_transferred grows by what its saves put. |
| RamLive.RamSender.SaveLive | project/Qemu/src/arch_init.c:253-343 | Each stage does what the state machine does, error returns included; after stage 1 the list is the old one in ascending order; 1 is returned exactly in stage 2 when the rest is expected to fit. |
| RamLive.RamSender.GuestStore | project/Qemu/src/cpu-all.h:538-541 | A store that sets the flags of its page is the guest write of the state machine. |
| RamLive.SavesAreRun | project/Qemu/src/arch_init.c:304-312 | What the rate-limited loop does is a run of the state machine. |
| RamLive.SaveIs | project/Qemu/src/arch_init.c:115-177 | One save of the machine in terms of the list and the stream: first dirty page from the last position, one page cleaned, and its record byte by byte, with 0x20 exactly in the block of the save before. |
| RamMigration.NonePassed | project/Qemu/src/arch_init.c:127-169 | No page between the last position and the page saved, in block order and round the end, is dirty. |
| RamLive.FlushAfterSaves | project/Qemu/src/arch_init.c:304-336 | Saves made before the flush do not change where the flush ends. |
| RamLive.RamReceiver.Load | project/Qemu/src/arch_init.c:375-467 | ram_load succeeds exactly when the section decodes, and then holds what was decoded. |
| RamEndToEnd.SectionLoads | project/Qemu/src/arch_init.c:375-467 | ram_load of what one stage put on the stream reads it to its end marker and gives what replaying those bytes gives. |
| RamEndToEnd.GuestRuns | project/Qemu/src/cpu-all.h:538-541 | Any number of guest stores between two stages keep sender and receiver in step and change memory by exactly those stores. |
| RamEndToEnd.FirstSection | project/Qemu/src/arch_init.c:253-299 | Stage 1 and the receiver's load of its section bring both in step, from any matching destination. |
| RamEndToEnd.Section | project/Qemu/src/arch_init.c:300-343 | Stage 2 or 3 and the load of its section keep them in step; after stage 3 nothing is dirty. |
| RamEndToEnd.Migrate | project/Qemu/src/arch_init.c:253-467 | The code end to end: stage 1, any number of rounds of guest stores and stage 2, and stage 3, each section loaded by ram_load, end with the receiver's RAM equal to the guest's, every store included; it fails only if the rate limiter reports an error. |
| BlockMigration.DeliverIsNewest | project/Qemu/src/block-migration.c:686-695 | After delivering a stream the destination holds, chunk by chunk, the newest record, or what it held before. |
| BlockMigration.DirtyReadExact | project/Qemu/src/block-migration.c:388-434 | From every state that keeps the invariant, submitting a dirty-phase read lets some run, in which nothing further goes wrong and everything is completed, sent and synchronised, end with unequal disks if and only if a read of the same chunk in flight holds a stale sample. |
| BlockMigration.DirtyReadKeeps | project/Qemu/src/block-migration.c:388-434 | The same submission keeps the invariant exactly when there is no such stale read; the bulk phase does not set the bit that would tell. |
| BlockMigration.WriteKeeps | project/Qemu/src/block.c:1302-1304 | A guest write marks its chunk dirty, which keeps the invariant. |
| BlockMigration.BulkReadKeeps | project/Qemu/src/block-migration.c:252-262 | Submitting a bulk read and resetting the dirty bit keeps the invariant. |
| BlockMigration.BulkSkipKeeps | project/Qemu/src/block-migration.c:214-220 | Passing over an unallocated chunk keeps the invariant when both ends share the base image. |
| BlockMigration.SampleKeeps | project/Qemu/src/block-migration.c:252-253 | The moment a read samples the disk keeps the invariant. |
| BlockMigration.CompleteKeeps | project/Qemu/src/block-migration.c:186-203 | Completing a read, in any order, keeps the invariant. |
| BlockMigration.SendKeeps | project/Qemu/src/block-migration.c:472-489 | Sending the oldest queued block keeps the invariant. |
| BlockMigration.RunKeeps | project/Qemu/src/block-migration.c:558-643 | In every run that never submits against a stale read, each chunk is dirty, unreached by the bulk scan, being read, or its newest copy equals the source. |
| BlockMigration.CompletionSamplingNeverStale | project/Qemu/src/block-migration.c:252-260 | If reads sample the disk when they complete, no run submits against a stale read, although the bulk phase leaves aio_bitmap alone. |
| BlockMigration.StageThreeExact | project/Qemu/src/block-migration.c:621-627 | After the synchronous pass with the guest stopped the disks are equal if and only if the copies left on the queue were redundant. |
| BlockMigration.MigrationCopiesDisks | project/Qemu/src/block-migration.c:558-643 | Under the hypotheses (no stale submission, queue empty and nothing in flight before the last pass) the destination ends equal to the source. |
| BlockMigration.StaleReadWins | project/Qemu/src/block-migration.c:389-420 | From any state with a stale read in flight, four steps make the stale contents the newest copy of a clean chunk. |
| BlockMigration.BulkReadRace | project/Qemu/src/block-migration.c:252-260 | A complete run, from the start, in which a bulk read that samples early ends with everything sent, nothing dirty and unequal disks. |
| BlockMigration.RateLimitedFlush | project/Qemu/src/block-migration.c:472-475 | A complete run in which the last flush stops at the rate limit and the disks end unequal although nothing is dirty. |
| BlockLive.BlkMig.constructor | project/Qemu/src/block-migration.c:281-330 | The initial state over devices of positive length. |
| BlockLive.BlkMig.SkipUnallocated | project/Qemu/src/block-migration.c:214-220 | With a shared base the loop stops only at the end of the device or at a sector the driver answers as allocated; every sector passed lies in a run it answered as unallocated. |
| BlockLive.BlkMig.SaveDeviceBulk | project/Qemu/src/block-migration.c:205-262 | One call passes over unallocated chunks and submits one read, or finishes the device, as steps of the state machine. With a shared base the chunk read holds a sector from the cursor on that was answered as allocated, and a device with none is finished without a read; without one the chunk at the cursor is read. |
| BlockLive.BlkMig.SubmitBulk | project/Qemu/src/block-migration.c:227-262 | Rounding down to the chunk, clipping to the end, submitting, resetting the dirty bit and moving the cursor are one bulk-read step. |
| BlockLive.BlkMig.FinishDevice | project/Qemu/src/block-migration.c:222-225 | The device is finished with its remaining chunks passed over. |
| BlockLive.BlkMig.ReadCb | project/Qemu/src/block-migration.c:186-203 | The callback is one completion step; submitted never becomes negative. |
| BlockLive.BlkMig.GuestWrites | project/Qemu/src/block.c:1300-1304 | A guest write that completes changes its chunk, marks it dirty and allocates its sectors: one write step of the machine. |
| BlockLive.BlkMig.AioFlush | project/Qemu/src/block-migration.c:389-391 | Waiting for all requests is a run of completions and guest writes after which nothing is in flight, and what is dirty beyond before is what the guest wrote in it. |
| BlockLive.BlkMig.WaitFor | project/Qemu/src/block-migration.c:389-391 | It waits exactly when the chunk has its in-flight bit set. |
| BlockLive.BlkMig.ScanDirty | project/Qemu/src/block-migration.c:388-437 | The loop stops at the first dirty chunk at or after the cursor, with its in-flight bit clear, or at the end; a chunk it passed is dirty only if the guest wrote it during the wait. |
| BlockLive.BlkMig.SubmitDirty | project/Qemu/src/block-migration.c:405-433 | The asynchronous branch is one dirty-read step. |
| BlockLive.BlkMig.SendDirty | project/Qemu/src/block-migration.c:421-433 | The synchronous branch reads and sends the chunk at once. |
| BlockLive.BlkMig.SaveDeviceDirtyAsync | project/Qemu/src/block-migration.c:379-439 | At most one read is submitted, for the first dirty chunk from the cursor on; true exactly when there is none, whatever the guest writes while it waits. |
| BlockLive.BlkMig.SaveDeviceDirtySync | project/Qemu/src/block-migration.c:379-439 | The same, sending at once. |
| BlockLive.BlkMig.FlushBlks | project/Qemu/src/block-migration.c:464-494 | Exactly the first blocks of the queue are sent, in order, one for each answer that the rate is not limited, until the queue is empty; read_done never becomes negative. |
| BlockLive.BlkMig.SaveBulkedBlock | project/Qemu/src/block-migration.c:332-368 | One step of the first device not finished, whose cursor alone moves; 0 exactly when all are. |
| BlockLive.BlkMig.SaveDirtyBlockAsync | project/Qemu/src/block-migration.c:449-462 | One read for the first device with a dirty chunk ahead of its cursor; none only if every dirty chunk is one the guest wrote, behind the cursors, during a wait of this stage (so none is dirty if the guest is quiet). |
| BlockLive.BlkMig.SaveDirtyBlockSync | project/Qemu/src/block-migration.c:449-462 | The first dirty chunk, by device and sector, is sent, or nothing is dirty. |
| BlockLive.BlkMig.ResetDirtyCursor | project/Qemu/src/block-migration.c:370-377 | All cursors go back to 0. |
| BlockLive.BlkMig.Stage2 | project/Qemu/src/block-migration.c:583-619 | Everything stage 2 does, for every rate limit, allocation answer and guest write during its waits, is a run of the state machine; it stops only when the reads not yet sent fill the limit, or the bulk phase is over and nothing is dirty but what the guest wrote while it waited. |
| BlockLive.BlkMig.Stage3 | project/Qemu/src/block-migration.c:583-627 | Stage 3 ends with nothing dirty; the disks are equal if and only if what the flush left queued was redundant, and always when the flush was not rate limited. |
| BlockStream.OverwriteChunk | project/Qemu/src/block-migration.c:686-695 | Writing a chunk replaces that chunk and no other, the short last chunk included. |
| BlockStream.BlockRoundTrip | project/Qemu/src/block-migration.c:657-700 | A block record puts its chunk on the named device and touches nothing else, whatever the buffer holds past a short last chunk. |
| BlockStream.RecordBytes | project/Qemu/src/block-migration.c:86-101 | The bytes of a block record: byte address with 0x01, length of the name, name, and a whole buffer. |
| BlockStream.WordMeans | project/Qemu/src/block-migration.c:657-706 | What a header word leads to, flag by flag: 0x01 a block, 0x04 progress, 0x02 the end, else an error. |
| BlockStream.BlockRefused | project/Qemu/src/block-migration.c:669-695 | A block record is refused exactly for an unknown device, one without sectors, or an address past its end. |
| BlockStream.LoadOneExtend | project/Qemu/src/block-migration.c:657-712 | What follows a record does not change its meaning. |
| BlockEndToEnd.SectionDelivers | project/Qemu/src/block-migration.c:644-713 | block_load of the bytes of a section, progress records included, ends at its end marker with exactly the disks that delivering its block records describes. |
| BlockEndToEnd.SectionsDeliver | project/Qemu/src/block-migration.c:644-713 | The same for any number of sections loaded in turn, onto devices found by name. |
| BlockEndToEnd.RunSized | project/Qemu/src/block-migration.c:186-262 | In every run everything queued, in flight or sent for a chunk is as long as the chunk, so every record fits. |
| BlockEndToEnd.MigrationCopiesDevices | project/Qemu/src/block-migration.c:558-713 | A whole block migration over bytes: under the hypotheses of MigrationCopiesDisks the sections that carry the sent records, however they are cut, load without error and every chunk of the destination devices equals the source. |
| AesField.InvMixOfMix | project/Qemu/src/aes.c:46-58 | InvMixColumns undoes MixColumns, column by column. |
| AesField.InvMixLinear | project/Qemu/src/aes.c:853-876 | InvMixColumns is linear over GF(2^8), so it can be moved past AddRoundKey. |
| AesField.InvSubOfSub | project/Qemu/src/aes.c:656-721 | The inverse S-box undoes the S-box. |
| AesTableLaws.TeEquations | project/Qemu/src/aes.c:46-58 | Every entry of Te0..Te3 is S[x] times a column of the MixColumns matrix. |
| AesTableLaws.TdEquations | project/Qemu/src/aes.c:46-58 | Every entry of Td0..Td3 is Si[x] times a column of the InvMixColumns matrix. |
| AesTableLaws.SBoxIsSubstitution | project/Qemu/src/aes.c:325-390 | The table Te4 is the S-box of section 5.1.1 of FIPS 197: inversion in the field, then the affine map. |
| AesCipher.InverseRetraces | project/Qemu/src/aes.c:1168-1261 | The inverse cipher meets, round by round, the states of the cipher in reverse. |
| AesCipher.InvCipherOfCipher | project/Qemu/src/aes.c:1076-1261 | InvCipher inverts Cipher for every key schedule and block. |
| AesCipher.EquivalentInverse | project/Qemu/src/aes.c:846-876 | The Equivalent Inverse Cipher of section 5.3.5 of FIPS 197, with transformed round keys, equals the inverse cipher. |
| Aes.TeRoundIsRound | project/Qemu/src/aes.c:982-1069 | The table round of encryption is the round of section 5.1 of FIPS 197, and the last round is the one without MixColumns. |
| Aes.TdRoundIsRound | project/Qemu/src/aes.c:1173-1260 | The table round of decryption is the round of section 5.3.5 of FIPS 197. |
| Aes.LoadOfStore | project/Qemu/src/aes.c:1048-1069 | Storing a state and loading it gives it back. |
| Aes.StoreOfLoad | project/Qemu/src/aes.c:901-904 | Loading a block and storing it gives it back. |
| Aes.Encrypt | project/Qemu/src/aes.c:885-1070 | The two-rounds-a-turn loop computes Cipher under the round keys. |
| Aes.Decrypt | project/Qemu/src/aes.c:1076-1261 | The same for decryption: with a decryption schedule it computes the Equivalent Inverse Cipher. |
| AesKeys.RconAtIs | project/Qemu/src/aes.c:722-726 | Entry i of the table is x^i of the field. |
| AesKeys.RowStart | project/Qemu/src/aes.c:758-764 | The first word of a key row is the word KeyExpansion of section 5.2 of FIPS 197 puts there. |
| AesKeys.RowNext | project/Qemu/src/aes.c:765-821 | So are the other words, the substituted middle word of a 256-bit row included. |
| AesKeys.InvMixByTablesIs | project/Qemu/src/aes.c:856-860 | Looking up Td of the S-box is InvMixColumns. |
| AesKeys.AesKey.CopyKey | project/Qemu/src/aes.c:752-797 | Byte by byte, the first words of the schedule are the user key, for every key size, and no other word changes. |
| AesKeys.AesKey.Expand128 | project/Qemu/src/aes.c:756-773 | The loop fills in the schedule of section 5.2 of FIPS 197 for 128 bits. |
| AesKeys.AesKey.Expand192 | project/Qemu/src/aes.c:776-795 | The same for 192 bits. |
| AesKeys.AesKey.Expand256 | project/Qemu/src/aes.c:798-825 | The same for 256 bits. |
| AesKeys.AesKey.SetEncryptKey | project/Qemu/src/aes.c:731-827 | The schedule, round count and return code for every key size, -2 and no change for another. |
| AesKeys.AesKey.ReverseRounds | project/Qemu/src/aes.c:846-852 | The in-place swaps reverse the round keys. |
| AesKeys.AesKey.MixInnerRounds | project/Qemu/src/aes.c:853-876 | All round keys but the first and the last are transformed. |
| AesKeys.AesKey.SetDecryptKey | project/Qemu/src/aes.c:832-878 | The result is a schedule of the Equivalent Inverse Cipher for the same key. |
| AesKeys.DecryptUndoesEncrypt | project/Qemu/src/aes.c:885-1261 | For every schedule and block decryption undoes encryption. |
| AesKeys.RoundTrip | project/Qemu/src/aes.c:731-1261 | The code end to end: for every 128-, 192- or 256-bit key and every block AES_decrypt gives back what AES_encrypt was given. |
| AesVector.CipherVector | project/Qemu/src/aes.c:731-1070 | Key schedule and cipher give, byte for byte, the ciphertext of appendix C.1 of FIPS 197. |
| AesVector192.CipherVector | project/Qemu/src/aes.c:774-795 | The same for the 192-bit key of appendix C.2. |
| AesVector256.CipherVector | project/Qemu/src/aes.c:796-825 | The same for the 256-bit key of appendix C.3. |
| AesCbc.CbcRoundTrip | project/Qemu/src/aes.c:1265-1314 | Decryption undoes encryption for every length, reading the whole last ciphertext block for a short tail. |
| AesCbc.EncIsChained | project/Qemu/src/aes.c:1276-1294 | CbcEnc is the definition of section 6.2 of NIST SP 800-38A block by block, for every cipher and length. |
| AesCbc.DecIsChained | project/Qemu/src/aes.c:1295-1313 | So is CbcDec, byte by byte. |
| AesCbc.EncIvIsLast | project/Qemu/src/aes.c:1282-1292 | After encrypting ivec is the last ciphertext block. |
| AesCbc.DecIvIsLast | project/Qemu/src/aes.c:1301-1311 | After decrypting it is the last ciphertext block, or that block decrypted when there was a tail. |
| AesCbc.XorTmp | project/Qemu/src/aes.c:1278-1289 | tmp is the exclusive or of data and ivec, and ivec past the end of a tail. |
| AesCbcVector.CbcVector | project/Qemu/src/aes.c:731-1285 | Chaining and cipher give the first ciphertext block of the CBC-AES128 example in appendix F.2.1 of NIST SP 800-38A. |
| AesCbc.FinalIvAgrees | project/Qemu/src/aes.c:1286-1312 | Both directions leave the same ivec if and only if the length is whole blocks or the padded, chained tail block is one the cipher maps to itself. |
| AesCbc.ShortTailIvsDiffer | project/Qemu/src/aes.c:1286-1312 | A one-byte message, under a key and ivec given in full, after which the two ivecs differ. |
| AesCbc.EncSplit | project/Qemu/src/aes.c:1277-1285 | Splitting the data after whole blocks and carrying ivec over changes nothing. |
| AesCbc.DecSplit | project/Qemu/src/aes.c:1296-1305 | The same for decryption. |
| AesCbc.EncBlock | project/Qemu/src/aes.c:1278-1293 | One block, or the tail, is encrypted and chained; in place, input not yet read is untouched. |
| AesCbc.CbcEncrypt | project/Qemu/src/aes.c:1276-1294 | The loop writes the CBC ciphertext of the input and leaves ivec as specified, in place or not, and touches nothing behind: every ciphertext block is the cipher of the plaintext block xored with the ciphertext block before it, or with ivec, a tail padded with that. |
| AesCbc.DecBlock | project/Qemu/src/aes.c:1297-1311 | One block, or the tail, is decrypted and chained. |
| AesCbc.CbcDecrypt | project/Qemu/src/aes.c:1295-1313 | The loop writes the CBC plaintext and leaves ivec as specified, in place or not: every byte is the decrypted block xored with the ciphertext block before it, or with ivec. |
| AesCbc.ThereAndBack | project/Qemu/src/aes.c:731-1314 | Key setup, encryption and decryption of a buffer in place give its bytes back, for every key size and length. |
| Iovec.CopyIsSlice | project/Qemu/src/cutils.c:171-209 | Copying appends exactly the bytes skip..skip+size of the source, in at most as many ranges. |
| Iovec.IoVector.constructor | project/Qemu/src/cutils.c:137-143 | An empty vector. |
| Iovec.IoVector.Add | project/Qemu/src/cutils.c:157-169 | One range is appended and the size kept up to date; the table doubles when full. |
| Iovec.IoVector.Copy | project/Qemu/src/cutils.c:178-209 | The loop appends those ranges and bytes, and does not grow a table that was big enough. |
| Iovec.IoVector.Concat | project/Qemu/src/cutils.c:211-214 | The same from the beginning of the source. |
| MultiwriteMerge.JoinExtent | project/Qemu/src/block.c:2338-2361 | A merged request starts where the running one did, ends where the new one does, and is whole sectors. |
| MultiwriteMerge.JoinByte | project/Qemu/src/block.c:2344-2359 | Its bytes are the running request up to the new one, zeros over a gap, then the new one. |
| MultiwriteMerge.RunningEnd | project/Qemu/src/block.c:2315-2371 | The running request always ends exactly where the last request taken ended. |
| MultiwriteMerge.StepAt | project/Qemu/src/block.c:2315-2371 | What taking one more request does to the byte at any address. |
| MultiwriteMerge.GapIsZero | project/Qemu/src/block.c:2350-2356 | A gap the driver accepted ends up zero. |
| MultiwriteMerge.MergedAt | project/Qemu/src/block.c:2305-2374 | At every address outside gaps and tails cut off for good, the merged list leaves what the sorted requests would. |
| MultiwriteMerge.MergeExact | project/Qemu/src/block.c:2305-2374 | Merging is right for every disk and all data of a batch's shape if and only if every byte cut off by a request that ends early is written again later (or zeroed with a gap). |
| MultiwriteMerge.ContainedTailIsLost | project/Qemu/src/block.c:2344-2347 | Every request folded into one that reaches further leaves the rest of that one unwritten. |
| MultiwriteMerge.DisjointLosesNothing | project/Qemu/src/block.c:2305-2374 | In a batch of non-empty requests that do not overlap nothing is cut off, whatever the driver joins. |
| MultiwriteMerge.DisjointBatch | project/Qemu/src/block.c:2305-2374 | Sorting and merging such a batch leaves the disk that performing it in the caller's own order leaves, gaps zeroed. |
| MultiwriteMerge.SameMerged | project/Qemu/src/block.c:2315-2336 | Which requests are folded together does not depend on the data. |
| MultiwriteMerge.JoinVectors | project/Qemu/src/block.c:2338-2361 | Building the new vector yields the merged request. |
| MultiwriteMerge.SortRequests | project/Qemu/src/block.c:2311-2311 | Sorting leaves the chosen sorted order in the array. |
| MultiwriteMerge.MergeRequests | project/Qemu/src/block.c:2305-2374 | The in-place loop leaves the merged list in front, and every cookie and error where it was. |
| MultiwriteCount.StepKeeps | project/Qemu/src/block.c:2267-2282 | Every submission, refusal and completion keeps the count and the other invariants. |
| MultiwriteCount.RunKeeps | project/Qemu/src/block.c:2442-2468 | They hold in every interleaving. |
| MultiwriteCount.CountIsOutstanding | project/Qemu/src/block.c:2442-2466 | num_requests is the number of writes not yet reported, plus a pending submission, plus the dummy, and is 0 exactly when the batch is over. |
| MultiwriteCount.EachCallbackOnce | project/Qemu/src/block.c:2253-2282 | In every run no callback is called before submission has ended and every write has reported; then each is called exactly once, with the first negative value among what the events of the run reported, in order, a late refusal counting as -EIO, else 0. None runs after a refused first submission, and the structure is not touched after it is freed. |
| MultiwriteCount.ErrorIsFirst | project/Qemu/src/block.c:2273-2275 | From any state, the error kept after a run is the one it had, else the first negative value the events of the run reported. |
| MultiwriteCount.Batch.Report | project/Qemu/src/block.c:2267-2281 | A write that reports a negative value sets the error if there was none. |
| MultiwriteCount.Batch.Refused | project/Qemu/src/block.c:2448-2462 | A refusal of the first write frees the batch; a later one sets -EIO if there was no error. |
| MultiwriteCount.AlwaysEnds | project/Qemu/src/block.c:2442-2468 | From every reachable state the batch can be brought to its end. |
| MultiwriteCount.Batch.MultiwriteCb | project/Qemu/src/block.c:2267-2282 | multiwrite_cb on the real fields: the first negative value is kept, and the last request calls every callback with the error and frees the batch. |
| MultiwriteCount.Batch.UserCb | project/Qemu/src/block.c:2253-2265 | The loop calls every callback once, in order, with the recorded error. |
| MultiwriteCount.Batch.Submit | project/Qemu/src/block.c:2445-2463 | One turn of the submission loop, with completions arriving before the next, is a run of the machine. |
| MultiwriteCount.SubmitAll | project/Qemu/src/block.c:2445-2463 | Exactly the requests before the first refusal are submitted. |
| MultiwriteCount.AioMultiwrite | project/Qemu/src/block.c:2390-2476 | Return value, error fields, submitted writes and callbacks for no medium, no requests, a refused first submission and everything else. |
| Bits.MaskTest | project/Qemu/src/bitops.h:35-60 | A masked word is zero exactly when the word has no bit under the mask. |
| Bits.Ffsl | project/Qemu/src/bitops.h:31-61 | The halving search returns the lowest set bit. |
| Bits.Flsl | project/Qemu/src/bitops.h:69-99 | The halving search returns the highest set bit. |
| Bits.Ffz | project/Qemu/src/bitops.h:107-110 | The lowest clear bit. |
| Bitmap.FindNextBit | project/Qemu/src/bitops.c:21-64 | The first set bit at or after offset, or size. |
| Bitmap.FindNextZeroBit | project/Qemu/src/bitops.c:70-113 | The first clear bit at or after offset, or size. |
| Bitmap.FindLastBit | project/Qemu/src/bitops.c:115-142 | The last set bit below size, or size. |
| Bitmap.BitmapSet | project/Qemu/src/bitmap.c:160-178 | Exactly the bits start..start+nr become set; every other bit of the map keeps its value. |
| Bitmap.BitmapClear | project/Qemu/src/bitmap.c:180-198 | Exactly those bits become clear. |
| Bitmap.FindNextZeroArea | project/Qemu/src/bitmap.c:214-237 | For a non-empty area: the least aligned index at or after start whose bits are clear and fit, or a value above size exactly when there is none. An empty area is put at the aligned next zero bit. |
| Bitmap.AlignMaskIs | project/Qemu/src/bitmap.c:200-225 | On masks one less than a power of two the bit operation gives the least multiple at or above its argument. |
| Bitmap.OtherMask | project/Qemu/src/bitmap.c:200-212 | On another mask it does not. |
| BlockIo.ReadAfterWrite | project/Qemu/src/block.c:1137-1229 | Reading a range just written gives the bytes written, and reading beside it the old ones. |
| BlockIo.Image.Read | project/Qemu/src/block.c:1258-1271 | The error returns and the bytes of a sector read. |
| BlockIo.Image.Write | project/Qemu/src/block.c:1284-1310 | The error returns of a sector write; a failing one has put some whole sectors. |
| BlockIo.Image.Pread | project/Qemu/src/block.c:1137-1180 | Exactly the byte range is returned; it succeeds on every accessible range when the driver does, and only on an accessible one; an error is no medium, one of the driver, or -EIO, the last only outside the device. |
| BlockIo.Image.Merge | project/Qemu/src/block.c:1196-1207 | Read-modify-write of a sector changes just the bytes put into it, even when it fails half way; the error is the first of its checks to fail. |
| BlockIo.Image.Pwrite | project/Qemu/src/block.c:1182-1229 | Exactly the byte range is replaced and no other byte of the touched sectors; on an error, which is one of the medium, the driver or the range, still no byte outside the range has changed. |
| Commit.CopyKeepsView | project/Qemu/src/block.c:924-937 | Writing overlay data over its own sectors, whole or in part, changes nothing the guest sees. |
| Commit.DropKeepsView | project/Qemu/src/block.c:939-942 | Once everything is committed any part of the overlay can go. |
| Commit.Chain.CopyAll | project/Qemu/src/block.c:924-937 | At every point of the loop, errors and a run that reaches past the end included, the view through the overlay is unchanged and only allocated sectors of the backing image are; at the end the backing image alone shows the view. |
| Commit.Chain.CommitOverlay | project/Qemu/src/block.c:869-942 | The same for the whole of bdrv_commit with a writable backing image, emptying included: its error code in every case, and when it succeeds. |
| DirtyTracking.TouchesIs | project/Qemu/src/block.c:1103-1106 | A non-empty request touches exactly the chunks it has sectors in; an empty one touches a chunk unless its sector starts one other than the first. |
| DirtyTracking.BitIsWritten | project/Qemu/src/block.c:1097-1123 | In every history a chunk's bit is set exactly when a write touched it, with tracking on, after it was last wiped. |
| DirtyTracking.CountExact | project/Qemu/src/block.c:3031-3050 | In every history dirty_count falls short of the set bits by exactly the bits set when tracking was last switched on; it is right if and only if there were none. |
| DirtyTracking.SwitchedOnTwice | project/Qemu/src/block.c:3031-3050 | A history of two switches with a write between, after which dirty_count is 0 and a bit is set. |
| DirtyTracking.CountIsBits | project/Qemu/src/block.c:3031-3074 | Switched on only from off, dirty_count is the number of set bits. |
| DirtyTracking.Tracker.SetDirtyBitmap | project/Qemu/src/block.c:1097-1123 | The loop marks or clears exactly the touched chunks and adjusts the counter by the change. |
| DirtyTracking.Tracker.SetDirtyTracking | project/Qemu/src/block.c:3031-3050 | Switching tracking on or off, on the real bitmap. |
| DirtyTracking.Tracker.NoteWrite | project/Qemu/src/block.c:1302-1304 | What a write does to the bitmap. |
| DirtyTracking.Tracker.ResetDirty | project/Qemu/src/block.c:3065-3069 | What a reset does to the bitmap. |
| DirtyTracking.Tracker.GetDirty | project/Qemu/src/block.c:3052-3063 | True exactly for a sector on the device whose chunk is marked. |
| BufferedFile.Buffered.Append | project/Qemu/src/buffered_file.c:47-69 | Appending, with the growth of the capacity. |
| BufferedFile.Buffered.Flush | project/Qemu/src/buffered_file.c:71-108 | The buffer is offered until it is empty or the backend answers otherwise: exactly the bytes the answers take go out, the rest stays, and frozen output and recorded error follow the last answer. |
| BufferedFile.Buffered.Put | project/Qemu/src/buffered_file.c:110-169 | With no error recorded, delivered bytes followed by buffered bytes stay all accepted puts in order if and only if a condition on the answers, the buffer and the bytes put holds: what goes out directly commutes with what the flush leaves behind, or nothing of a refused put went out. How many bytes move where is stated for every sequence of answers. |
| BufferedFile.LimitHolds | project/Qemu/src/buffered_file.c:127-156 | Nothing is offered once more than the limit went out in the period; bytes stay behind only for that reason or because of an answer; and the limit is passed by at most what one call takes. |
| BufferedFile.AnswersTaken | project/Qemu/src/buffered_file.c:84-104 | How many bytes go out is the sum of the answers up to the one that stops it. |
| BufferedFile.Buffered.RateTick | project/Qemu/src/buffered_file.c:241-261 | The tick keeps the order; with an error recorded it closes the file, and unless the output is frozen it starts a new period and offers the buffer, with the whole state after it stated. |
| BufferedFile.Buffered.SetRateLimit | project/Qemu/src/buffered_file.c:218-232 | A tenth of the rate clamped to SIZE_MAX, unless an error is recorded. |
| BufferedFile.ZeroLetsPutOvertake | project/Qemu/src/buffered_file.c:95-98 | A run of two puts after which the second byte has overtaken the first and no error is recorded. |
| BufferedFile.Buffered.Close | project/Qemu/src/buffered_file.c:171-192 | An error-free close has delivered everything accepted; it gives up before that only when it has waited as often as it may. |
| BottomHalf.StepKeeps | project/Qemu/src/async.c:44-121 | Every action and every step of a poll keeps the invariant. |
| BottomHalf.RunKeeps | project/Qemu/src/async.c:44-121 | It holds under any nesting of polls and any callbacks. |
| BottomHalf.HeldNodesStay | project/Qemu/src/async.c:64-89 | The node a poll looks at, or will look at next, is in the list and not freed. |
| BottomHalf.OneCallPerSchedule | project/Qemu/src/async.c:66-72 | A node is called at most once per effective schedule, and not after it was deleted. |
| BottomHalf.CallsAreOwed | project/Qemu/src/async.c:64-121 | In every run whether a poll that comes to a node calls it, and whether that call counts for its result, follows from the history alone: a schedule that finds no call owed makes one, idle or not, and a call, cancellation or deletion ends it. |
| BottomHalf.PollMissesNothing | project/Qemu/src/async.c:64-73 | A poll does not end before every node scheduled when it began has been called, cancelled or deleted. |
| BottomHalf.PollServes | project/Qemu/src/async.c:61-73 | Whatever a poll finds scheduled when it begins is called, cancelled or deleted by an event of the run before it ends, however its callbacks nest polls. |
| BottomHalf.OutermostSweeps | project/Qemu/src/async.c:75-89 | When the outermost poll returns exactly the nodes not deleted are left, in order; an inner poll unlinks nothing. |
| BottomHalf.Context.BhNew | project/Qemu/src/async.c:44-53 | A new node at the front of the list. |
| BottomHalf.Context.BhSchedule | project/Qemu/src/async.c:94-110 | Scheduling, idle or not; a scheduled node keeps its idle flag. |
| BottomHalf.Context.BhCancel | project/Qemu/src/async.c:112-115 | Cancelling. |
| BottomHalf.Context.BhDelete | project/Qemu/src/async.c:117-121 | Deleting. |
| BottomHalf.Context.PollBegin | project/Qemu/src/async.c:61-64 | A poll begins at the head of the list. |
| BottomHalf.Context.PollRun | project/Qemu/src/async.c:64-91 | The loop up to the next callback or the end of the poll is a run of the machine; ret says whether that callback was not idle. |
| BottomHalf.Context.BhPoll | project/Qemu/src/async.c:55-92 | The whole of qemu_bh_poll, for callbacks that create, schedule, cancel, delete and poll in turn to any depth: it comes back to where it was called, the polls around it stand where they stood, and it returns 1 exactly when it itself called a bottom half that was not idle. |
| BottomHalf.Context.Sweep | project/Qemu/src/async.c:77-89 | The pointer loop leaves exactly the nodes not deleted, in order. |
| CoroutineHandoff.StepKeeps | project/Qemu/src/coroutine-gthread.c:45-111 | Every step of every thread keeps the invariant. |
| CoroutineHandoff.OneAtATime | project/Qemu/src/coroutine-gthread.c:45-68 | In every interleaving exactly one coroutine is runnable, only its thread runs coroutine code, and no thread sleeps while its coroutine is runnable. |
| CoroutineHandoff.ResumedWith | project/Qemu/src/coroutine-gthread.c:92-111 | A resumed switch returns the action passed by whoever resumed it; a termination comes from the very coroutine it had switched to. |
| CoroutineHandoff.ControlFollowsCalls | project/Qemu/src/qemu-coroutine.c:27-75 | In every interleaving coroutine code runs in just the coroutine that the calls of enter, yield and the end of entry functions, read as a stack, have on top, and each caller is the coroutine below. |
| CoroutineHandoff.ReturnsTheCall | project/Qemu/src/coroutine-gthread.c:92-111 | A switch that returns says termination exactly when the latest such call was the end of the coroutine it had switched to. |
| CoroutineHandoff.ReapsTheEnded | project/Qemu/src/qemu-coroutine.c:27-43 | What coroutine_swap joins and frees is the coroutine that ended, no other has ended, and the join returns once that thread has returned, which nothing prevents. |
| CoroutineHandoff.HandoverGoesOn | project/Qemu/src/coroutine-gthread.c:92-111 | The hand-over does not get stuck: unless coroutine code is running some thread can take its next step. |
| CoroutineHandoff.HandoverNears | project/Qemu/src/coroutine-gthread.c:45-111 | Every step of the hand-over, by whichever thread, lowers one measure. |
| CoroutineHandoff.HandoverBound | project/Qemu/src/coroutine-gthread.c:45-111 | However threads are scheduled, a hand-over takes at most that many steps and three more for each spurious wake-up. |
| CoroutineHandoff.TurnIsReached | project/Qemu/src/coroutine-gthread.c:45-111 | In every reachable state control reaches the coroutine whose turn it is: hand-over steps come to an end, and where they do that coroutine is running. |
| Calendar.Mktimegm | project/Qemu/src/cutils.c:100-112 | For every broken-down time of a year from 1 on the result is the seconds counted through the calendar since 1 January 1970 if and only if the date is from 14 December 1901 to 19 January 2038; otherwise the days part is off by a multiple of 2^32, as the 32-bit product makes it. |
| Calendar.FormulaCounts | project/Qemu/src/cutils.c:103-110 | The closed formula counts days year by year and month by month; 1 January 1970 is 0. |
| Calendar.NextDayIsOneLater | project/Qemu/src/cutils.c:103-110 | In the span the next calendar day is 86400 seconds later if and only if it is in the span too; the day number is one more everywhere. |
| Calendar.StrictlyIncreasing | project/Qemu/src/cutils.c:103-111 | In the span mktimegm is strictly increasing on dates with a time of day, hence injective. |
| Calendar.OrderEnds | project/Qemu/src/cutils.c:107-111 | Past the span the order is lost: 20 January 2038 comes out before the day before it. |
| Calendar.FirstWrongDay | project/Qemu/src/cutils.c:107-110 | The value the code gives for 20 January 2038, which is not the counted one. |
| Calendar.InSpanIs | project/Qemu/src/cutils.c:107-108 | The span of dates is exactly where the product fits in a 32-bit int. |

## Left out

- Version 3 of the RAM stream, `madvise`, the floating-point bandwidth and downtime estimates (a yes-or-no parameter
  here), the monitor, timers and memory allocation failure.
- Streams on which the C code has undefined behaviour (an offset outside its block, a full page for an unknown block):
  the decoder of the model calls them undefined and promises nothing about them.
- RamMigration.GuestWriteKeeps: that a guest write sets the dirty flag is what RamLive.RamSender.GuestStore does; that
  the CPU emulation reaches that code for every store is not modelled.
- RamLive.RamSender.SaveLive: whether the rest fits in the allowed downtime is a parameter, not computed.
- RamLive.RamReceiver.Load: failure is one outcome without its error code, and streams of version 3 are not read.
- BlockLive.BlkMig.SaveBulkedBlock: does not count completed sectors or report progress.
- BlockLive.BlkMig.Stage2: the estimate that ends stage 2 is not modelled.
- BlockLive.BlkMig.SubmitBulk: a submission that fails, which ends the migration, is not modelled.
- BlockLive.BlkMig.SubmitDirty: a submission that fails, which ends the migration, is not modelled.
- BlockLive.BlkMig.FlushBlks: a queued block whose read failed, at which the loop breaks, is not modelled.
- BlockEndToEnd.MigrationCopiesDevices: requires what MigrationCopiesDisks requires (no submission against a stale
  read, queue empty before the last pass), and guest writes that keep the length of a chunk.
- Null pointers in AES key setup, the unrolled variants (switched off in the source), and CBC buffers that overlap
  without being equal.
- AesCbc.CbcEncrypt: ivec is a buffer of its own, distinct from input and output.
- AesCbc.CbcDecrypt: ivec is a buffer of its own, distinct from input and output.
- Iovec.IoVector.Copy: a range is its bytes, not a pointer, so ranges that overlap in memory and changes of a buffer
  between merging and submitting are not captured; filling, clearing and copying vectors to and from a flat buffer
  are left out as easy.
- MultiwriteMerge.SortRequests: the order qsort picks among requests with the same sector is given.
- MultiwriteMerge.MergeRequests: request vectors are values; the 32-bit overflow of sector counts and the freeing of
  merged vectors and zero buffers are not modelled.
- MultiwriteMerge.MergeExact: the driver hook is asked about sectors and lengths only.
- Commit.Chain.CommitOverlay: reopening a read-only backing file is not modelled.
- BlockIo.Image.Write: the dirty bitmap (see DirtyTracking) and the highest sector written are not part of the image.
- BlockIo.Image.Pwrite: a failing driver write is taken to have put some number of whole sectors from the front.
- DirtyTracking.Tracker.SetDirtyBitmap: the bitmap is taken to be long enough for the chunks touched; its size in bytes
  and writes past the end of a growing device are not modelled.
- Bits.Ffsl: words of 64 bits; hosts with 32-bit longs are left out. A shift by a variable amount is that many shifts
  by one.
- Bitmap.FindNextZeroArea: sums do not wrap at 2^64.
- BufferedFile.Buffered.Close: waits are bounded by a parameter, since a backend that is not ready stays so for as long
  as it likes; the client told to go on by put_ready is left out.
- BottomHalf.Context.BhPoll: a callback uses a bottom half only while it has not been freed.
- CoroutineHandoff.OneAtATime: one leader, which is not itself entered; failure to create a thread is
  not modelled.
- Calendar.Mktimegm: an int that overflows is taken to wrap, which the C standard leaves undefined; fields of the
  broken-down time outside their ranges, and years before 1, are computed but nothing is promised about them.
- Image opening, probing and snapshots, block drivers, savevm, display, audio, device and CPU emulation, and the demo
  programs and user interface beside QEMU.
