# goblin-store: a verified model

goblin-store is an object cache with three tiers: a RAM head, an SSD prefix striped over drives, and an HDD
tail striped over drives. This project models its hard core in Dafny and proves what the design promises.
`dafny verify dfyconfig.toml` checks everything.

## How the model is built

* **Striping** (`Striping`, `StripedIo`, `Layout`): where the bytes of an object lie, planning, scatter and gather.
* **RAM** (`BuddyBlocks`, `BuddyAllocator`, `BufferPool`): the buddy allocator and the pool of arenas over it, as
  classes with the source's free lists. The specification is a partition of the arena into blocks.
* **Eviction** (`S3Fifo`): the policy as a class whose queues hold stale and duplicate entries. The
  specification is a function of the side map.
* **Storage engine**: `WritePath` is the streaming writer. `Core` gives each critical section as a function on
  the state the lock guards, `HeadRoom` what memory evictions can free, and `TierManager` is the class whose
  methods are proved to compute those functions. `Engine` is the step relation in which writes, flushes and
  critical sections of any number of handles and readers interleave; `EngineInv` and `EngineRuns` prove what
  every run keeps, `EngineGets` that a GET is of one version, and `EngineClock` what expiry times, the
  sweep of expired objects and etags decide. `FlushPromise` ties the writer's promise to
  the step that needs it, and `ReadPromise` what the engine keeps for a reader to what the event loop asks of
  its files. Disk is a map from name to inode and from inode to bytes; an open file holds its inode whatever
  happens to the name.
* **Event loop**: `ReadPlan` is one piece of a GET and its disk reads, `PaddedReads` the rounding of those reads.
  `Pipeline` is one GET response as a class with the connection's fields, whose methods are the completion
  handlers; `Serve` runs it, with the planned reads of `ReadPlan`, under an arbitrary environment. `RequestLoop`
  gives the request loop and the drains as functions of what clients and storage engine do next, and `Waiters`
  is the bookkeeping of buffers, queues and connections over whole runs.
* **Protocols**: `Framing` is the memcache request loop against a whole-stream reference, and `FramingLaw` what
  that reference does to a list of requests. `KeyPath` is key derivation, compared with RFC 3986. `Sha256` is
  compared with FIPS 180-4: `Sha256Constants` derives its constants from the primes, `Sha256Words` ties its words
  to numbers and bits, and `Sha256Vector` works through the digest of `abc`.

`Arith` and `Collections` hold counting lemmas, and `Environment` the choices the program does not make.

## Where the code does less than it says

Each of these is proved with its exact condition; most are also shown on a concrete input or run.

* The sum of key hash and chunk number is a 64-bit word. When it wraps inside a row of chunks, two of them can
  get the same place (`Striping.NoClashIff`, `Striping.WrapClashExample`), so that what is written cannot be
  read back (`StripedIo.ReadsBackIff`, `StripedIo.TierReadsBackIff`); a later chunk can lie on a drive that is not opened
  (`Striping.SegmentsHitOpenedDrivesIff`, `Striping.LeftOutExample`); and a commit stops half way
  through its renames (`TierManager.PublishTier`, `TierManager.Manager.Commit`).
* The tail of a GET is planned against the live index, so a GET whose snapshot found no resident head can mix
  two versions (`EngineRuns.PlannedByteIff`, `EngineGets.GetIsOneVersion`, `EngineExample.MixedVersionGet`).
* A comment takes every piece to start on a 4 KiB boundary. A Range request need not, and then a rounded-up
  read can overwrite its neighbour (`ReadPlan.NoSpillIff`, `PaddedReads.RoundingIff`, `PaddedReads.RoundingByLayoutIff`,
  `PaddedReads.UnalignedGoesWrong`).
* A comment calls the draining of parked GETs FIFO. The code puts the front back at the end: the order is kept
  if and only if nobody was put back or nobody else was left (`Waiters.Loop.DrainGetWaiters`,
  `Waiters.Loop.GetQueueRotates`). Parked writes are FIFO.
* A connection that a drain closes has nothing in flight, and no completion will ever retire it: it stays among
  the connections for good (`RequestLoop.ClosesIff`, `RequestLoop.SetsCloseIff`, `Waiters.Loop.DrainSetWaiters`,
  `Waiters.NeverRetired`).
  It holds no buffer.
* A disk read that brings less than is wanted of it counts as complete, and the piece is sent as it stands
  (`Pipeline.Conn.OnRead`, `Pipeline.Conn.Serve`).
* A line of exactly 8 KiB is accepted or not depending on how it arrives (`Framing.NeverOverlongIff`).
* Aborting a GET after a failed read gives both buffers back even while the other one is being sent
  (`Waiters.Loop.AbortGet`, `Pipeline.Conn.OnRead`).
* The sweep of expired objects lists keys first and removes them later, one by one, without a second look: a key
  that was stored or touched meanwhile is lost (`EngineClock.SweepIff`, `EngineExample.SweepHitsKept`).
* An evicted digest that is also the oldest remembered one is forgotten at once (`S3Fifo.Policy.GhostPush`,
  `S3Fifo.ForgottenAtOnce`).

## Model

| member | source | states |
|---|---|---|
| `Striping.NoClashIff` | src/goblin/storage/drive_pool.cpp:7-16 | Two chunks of one stripe row never fall on the same drive if and only if the 64-bit wrap of key hash plus chunk number is harmless: the drive count divides 2^64, or the wrap falls on a row boundary, or the tier ends before two chunks can meet |
| `Striping.HarmfulWrapClashes` | src/goblin/storage/drive_pool.cpp:7-10 | A harmful wrap yields two concrete chunks of one row on one drive |
| `Striping.WrapClashExample` | src/goblin/storage/drive_pool.cpp:7-16 | Three drives and the largest hash: the first two chunks get the same drive and the same file offset |
| `Striping.PlaceInjective` | src/goblin/storage/drive_pool.cpp:7-16 | Where no chunks clash, (drive, file offset) determines the tier offset |
| `Striping.SegmentsHitOpenedDrivesIff` | src/goblin/storage/tier_manager.cpp:65-91 | Every byte of a tier, its padding to 4 KiB included, lies on a drive that opening the object opened, if and only if there are at most as many chunks as drives, or the drive count divides 2^64, or the 64-bit sum wraps only behind the first row, or the tier ends before the first chunk on a drive left out |
| `Striping.LeftOutExample` | src/goblin/storage/tier_manager.cpp:65-91 | Three drives, the largest hash, four chunks: the last chunk is on a drive that is not opened |
| `Striping.PaddedFits` | src/goblin/storage/drive_pool.cpp:18-22 | The padded tier still fits the chunks it was counted in |
| `StripedIo.PlanReads` | src/goblin/storage/drive_pool.cpp:24-41 | The planned segments tile [off, off+len) exactly, each inside one chunk on the drive and at the file offset of its first byte, and each but the last runs to its chunk's end |
| `StripedIo.PwriteSegment` | src/goblin/storage/striped_io.cpp:13-22 | With any pattern of short writes the files are those before, with exactly the bytes written so far put in place in order; success if and only if the whole segment is |
| `StripedIo.StripedPwrite` | src/goblin/storage/striped_io.cpp:8-26 | Scatter, for every hash: the files are those before with the data, or on failure a prefix of it, put byte by byte where the striping has them, and nothing else changed |
| `StripedIo.LastWriterWins` | src/goblin/storage/striped_io.cpp:8-26 | Of the bytes that share a place the last one is there afterwards |
| `StripedIo.ScatterElsewhere` | src/goblin/storage/striped_io.cpp:8-26 | A place that no byte of the data has keeps what it held |
| `StripedIo.ScatterAppend` | src/goblin/storage/striped_io.cpp:8-26 | Writing a range in two calls is writing it in one |
| `StripedIo.ReadsBackIff` | src/goblin/storage/striped_io.cpp:8-64 | Whatever is scattered over a range reads back, if and only if no two bytes of the range share drive and file offset |
| `StripedIo.CleanIsDistinct` | src/goblin/storage/drive_pool.cpp:7-16 | A striping without clashing chunks gives every byte of the tier its own place |
| `StripedIo.DistinctIsClean` | src/goblin/storage/drive_pool.cpp:7-16 | And only such a striping does |
| `StripedIo.TierReadsBackIff` | src/goblin/storage/striped_io.cpp:8-64 | Every tier of a given size reads back as written if and only if the 64-bit wrap of key hash plus chunk number is harmless in its chunks |
| `StripedIo.StripedRead` | src/goblin/storage/striped_io.cpp:28-64 | Gather: with reads completing in any order and any of them short, what each brought is the tier's bytes of its segment; the total returned equals the length asked for if and only if no read was short, and then the output is the tier range |
| `StripedIo.RoundTrip` | src/goblin/storage/striped_io.cpp:8-64 | Gathering any sub-range after scattering to distinct places gives back that sub-range of the data |
| `Layout.ComputeLayout` | src/goblin/storage/layout.cpp:7-36 | The tiers add up to the object, nothing is on disk exactly when the head covers it, the SSD holds as much as its prefix allows (everything without a third tier), and an HDD tail starts 4 KiB-aligned behind a full SSD prefix |
| `Layout.PlaceBijective` | src/goblin/storage/layout.cpp:38-41 | Object offsets and tier offsets correspond one to one |
| `BuddyBlocks.SplitPartition` | src/goblin/core/buffer_pool.cpp:37-42 | Splitting a block keeps the blocks aligned, disjoint and covering the arena |
| `BuddyBlocks.MergePartition` | src/goblin/core/buffer_pool.cpp:51-60 | So does merging a block with its buddy |
| `BuddyBlocks.FreeRangeIsCovered` | src/goblin/core/buffer_pool.cpp:28-63 | With no two free buddies left, every aligned range without live bytes lies inside one free block |
| `BuddyBlocks.FreeBlockIffFreeRange` | src/goblin/core/buffer_pool.cpp:28-45 | A free block of at least some order exists if and only if an aligned range of that order without live bytes exists |
| `BuddyBlocks.EmptyIsWhole` | src/goblin/core/buffer_pool.cpp:47-63 | With everything freed the free blocks are the one whole-arena block |
| `BuddyBlocks.FreeIsDetermined` | src/goblin/core/buffer_pool.cpp:28-63 | The live allocations alone determine the free blocks, whatever sequence of operations led there |
| `BuddyBlocks.XorIsBuddy` | src/goblin/core/buffer_pool.cpp:53-55 | On aligned offsets the bit operation of the code finds the other half of the parent block |
| `BuddyAllocator.Allocator.constructor` | src/goblin/core/buffer_pool.cpp:12-19 | One free block, the whole arena |
| `BuddyAllocator.Allocator.OrderFor` | src/goblin/core/buffer_pool.cpp:21-26 | The least order whose block size holds the request |
| `BuddyAllocator.Allocator.Allocate` | src/goblin/core/buffer_pool.cpp:28-45 | Succeeds if and only if the size is between 1 and the arena and an aligned fully free range of the rounded size exists; the new block overlaps no live one, the partition and the sum of used bytes are kept; a refusal changes nothing |
| `BuddyAllocator.Allocator.Deallocate` | src/goblin/core/buffer_pool.cpp:47-63 | Removes exactly that allocation and coalesces, along the offsets the bit operation gives, until no two free buddies remain |
| `BufferPool.BlockPool.Acquire` | src/goblin/core/buffer_pool.cpp:122-127 | Takes the block released last, or refuses exactly when none is free |
| `BufferPool.BlockPool.Release` | src/goblin/core/buffer_pool.cpp:129-129 | Gives a block back |
| `BufferPool.Pool.AllocateIn` | src/goblin/core/buffer_pool.cpp:154-160 | Allocation in one open arena, refused exactly when it has no free range of that order |
| `BufferPool.Pool.OpenAndAllocate` | src/goblin/core/buffer_pool.cpp:161-166 | A fresh arena always satisfies a request that fits a block |
| `BufferPool.Pool.Allocate` | src/goblin/core/buffer_pool.cpp:151-167 | Succeeds if and only if the size fits a block and some block, open or not, has a free range for it; adds exactly one region; every block stays free or else has an arena in use |
| `BufferPool.Pool.Deallocate` | src/goblin/core/buffer_pool.cpp:169-176 | Removes exactly that region and closes the arena that became empty |
| `BufferPool.Pool.RegionsDisjoint` | src/goblin/core/buffer_pool.cpp:151-182 | Live regions of the pool have disjoint addresses inside it |
| `S3Fifo.Policy.Insert` | src/goblin/storage/s3fifo.cpp:9-23 | A resident gets its visited bit, a remembered digest enters main, any other enters small; counters count the residents and each resident occurs in its own queue despite stale and duplicate entries |
| `S3Fifo.Policy.Touch` | src/goblin/storage/s3fifo.cpp:25-27 | Sets the visited bit of a resident and nothing else |
| `S3Fifo.Policy.Remove` | src/goblin/storage/s3fifo.cpp:29-38 | Removes exactly that digest, leaving queue entries behind as stale ones |
| `S3Fifo.Policy.PopFrontResident` | src/goblin/storage/s3fifo.cpp:40-49 | The first entry of the queue that is resident in it, skipping stale ones, with what stands behind it left; nothing exactly when no entry is resident |
| `S3Fifo.Policy.GhostPush` | src/goblin/storage/s3fifo.cpp:51-58 | Remembers the evicted digest unless the history is full and starts with that same digest, in which case it is forgotten at once; at most the front one is forgotten |
| `S3Fifo.Policy.GhostBound` | src/goblin/storage/s3fifo.cpp:51-58 | At most the capacity is remembered, disjoint from the residents |
| `S3Fifo.Policy.DrainSmall` | src/goblin/storage/s3fifo.cpp:65-84 | Promotes the visited residents met and stops at the first unvisited one, in queue order; exactly that one is remembered, by the rule of the ghost queue |
| `S3Fifo.Policy.DrainMain` | src/goblin/storage/s3fifo.cpp:86-102 | The second-chance scan ends with the first resident without a visited bit, or the first one met again |
| `S3Fifo.Policy.Evict` | src/goblin/storage/s3fifo.cpp:60-103 | Terminates, finds a victim if and only if something is resident, removes exactly that one, and pushes it to the ghost queue if and only if it was an unvisited resident of small. With at least a tenth of the capacity (rounded down) in small, or main empty, an unvisited small resident goes if there is one and main stays as it is; with less in small, a main resident goes and small stays as it is |
| `S3Fifo.SmallPays` | src/goblin/storage/s3fifo.cpp:63-90 | The first of these, on the numbers of residents: the victim is an unvisited small resident, and no main resident goes or loses its visited bit |
| `S3Fifo.MainPays` | src/goblin/storage/s3fifo.cpp:63-68 | The second: the victim is a main resident, and every small resident keeps its entry |
| `S3Fifo.SmallMovesUp` | src/goblin/storage/s3fifo.cpp:70-90 | If all of a drained small queue was visited, nothing is left in it, and those that stay are in main with their visited bit cleared |
| `S3Fifo.EvictAll` | src/goblin/storage/s3fifo.cpp:60-103 | Evicting until nothing is left yields a permutation of the residents |
| `S3Fifo.ForgottenAtOnce` | src/goblin/storage/s3fifo.cpp:51-58 | A concrete run with capacity one after which the digest just evicted is not remembered |
| `WritePath.StoreHandle.constructor` | src/goblin/storage/tier_manager.cpp:257-262 | An open writer over empty files, for every hash |
| `WritePath.StoreHandle.FillHead` | src/goblin/storage/tier_manager.cpp:318-321 | The head buffer holds the prefix of what has been fed |
| `WritePath.StoreHandle.StageSome` | src/goblin/storage/tier_manager.cpp:331-339 | Staged plus flushed bytes are all bytes so far, and the flushed part is block-aligned |
| `WritePath.StoreHandle.FlushBlock` | src/goblin/storage/tier_manager.cpp:348-371 | A staged block, split at the SSD boundary, is put into the files of the tiers behind what they have, byte for byte where the striping has it |
| `WritePath.StoreHandle.Write` | src/goblin/storage/tier_manager.cpp:314-342 | Refused if and only if the chunk runs past the declared size, otherwise the handle holds the old bytes and the chunk |
| `WritePath.StoreHandle.FinishFlush` | src/goblin/storage/tier_manager.cpp:373-384 | Incomplete if and only if bytes are missing; else the head holds the first bytes, and the files are exactly those that scattering the SSD and HDD parts, padded up to the next 4 KiB, over empty files gives |
| `WritePath.Upload` | src/goblin/storage/tier_manager.cpp:314-384 | For every split of a value into writes the sealed handle holds the concatenation |
| `WritePath.ChunkingInvisible` | src/goblin/storage/tier_manager.cpp:314-384 | Two handles fed the same value in different pieces end with equal heads and equal files, padding included |
| `WritePath.TierReads` | src/goblin/storage/tier_manager.cpp:348-371 | Where no two bytes share a place, every byte of a written tier reads as the value, zero behind its end |
| `Core.RetireOwned` | src/goblin/storage/tier_manager.cpp:618-624 | Taking a head away frees its region or orphans it while pinned; ownership of every region is kept |
| `Core.InstallOwned` | src/goblin/storage/tier_manager.cpp:401-409 | The handle's region passes to the index entry and to nothing else |
| `Core.ReserveOwned` | src/goblin/storage/tier_manager.cpp:206-250 | A newly reserved region belongs to the new handle alone |
| `Core.AbortOwned` | src/goblin/storage/tier_manager.cpp:296-312 | An abandoned store gives its region back and touches no other |
| `Core.PinOwned` | src/goblin/storage/tier_manager.cpp:588-599 | A pin counts its holders exactly |
| `Core.UnpinOwned` | src/goblin/storage/tier_manager.cpp:601-610 | The last unpin frees an orphan; no region is freed while pinned |
| `Core.EvictHeadInv` | src/goblin/storage/tier_manager.cpp:221-250 | Evicting a head keeps ownership, policies and sizes in agreement, and drops the object if it lived in RAM only |
| `Core.DropObjectInv` | src/goblin/storage/tier_manager.cpp:549-561 | Dropping an object removes it from index and policies alike and keeps all other entries |
| `Core.PublicationInv` | src/goblin/storage/tier_manager.cpp:386-416 | Publishing keeps the invariant, and the index is the old one with exactly the new entry |
| `Core.TouchedInv` | src/goblin/storage/tier_manager.cpp:164-170 | Changing an expiry keeps everything else |
| `EngineInv.StepInv` | src/goblin/storage/tier_manager.cpp:181-660 | Every step of every interleaving keeps the system invariant: entries, readers and handles hold the bytes of their versions, private files stay private, regions have one owner |
| `EngineRuns.RunInv` | src/goblin/storage/tier_manager.cpp:181-660 | The invariant holds in every reachable state |
| `EngineRuns.RunMonotone` | src/goblin/storage/tier_manager.cpp:386-416 | Along a run versions and published files never change, and a key's etag stays or becomes one never used before |
| `EngineRuns.EtagNeverReturns` | src/goblin/storage/tier_manager.cpp:386-408 | An etag gone from a key never comes back |
| `EngineRuns.CasLosesNoUpdate` | src/goblin/storage/tier_manager.cpp:386-408 | A commit that passes with the etag seen earlier implies that the key kept that etag and version at every state between, so no store, delete or eviction took effect; its own etag is new |
| `EngineClock.SwapIff` | src/goblin/storage/tier_manager.cpp:386-390 | Both ways, at every state of every run: a flushed store that asks for the etag a client saw can commit if and only if the key is still that version, its expiry is 0 or later than now, and its renames can go through |
| `EngineClock.PlainCommitIff` | src/goblin/storage/tier_manager.cpp:386-390 | Without an etag, a flushed store can commit if and only if its renames can go through |
| `EngineClock.ScratchThere` | src/goblin/storage/tier_manager.cpp:391-397 | A store that is under way has all its scratch files |
| `EngineClock.ReadableUntil` | src/goblin/storage/index.hpp:53-55 | If a key was last stored or touched with the expiry `e`, a read at `now` finds it if and only if it is still indexed and `e` is 0 or later than `now`, at every later state of the run |
| `EngineClock.MissStays` | src/goblin/storage/tier_manager.cpp:630 | An indexed key that a read misses is missed by every later read at every later time, until it is stored or touched again |
| `EngineClock.SweepIff` | src/goblin/storage/tier_manager.cpp:170-179 | In every run, the sweep's removal of a key it listed at `now` changes no read from then on if and only if the key is gone, or its expiry is still set and not later than `now`, when its turn comes |
| `EngineClock.SweepUnnoticed` | src/goblin/storage/tier_manager.cpp:170-179 | So it is if nobody stored or touched the key in between |
| `EngineExample.SweepHitsKept` | src/goblin/storage/tier_manager.cpp:164-179 | A run in which a key is listed, then touched to be kept for ever, and removed all the same |
| `EngineRuns.PlannedByteSource` | src/goblin/storage/tier_manager.cpp:510-540 | Every planned byte of a GET is a byte of one of two versions: the one the index names now under its resident head, the snapshot's behind it |
| `EngineRuns.PlannedByteIff` | src/goblin/storage/tier_manager.cpp:510-540 | A planned byte is the snapshot's if and only if no resident head reaches over it at planning time, or that head is of the same version, or both versions agree there |
| `EngineGets.GetIsOneVersion` | src/goblin/storage/tier_manager.cpp:510-540 | Over every run: from the snapshot step on, while the reader is open, each byte of a GET, planned at any later state and read at any state after that, is of the version indexed at the snapshot, if a head was resident there or nobody committed the key in between |
| `EngineGets.RunKeepsReader` | src/goblin/storage/tier_manager.cpp:626-658 | Along a run an open reader keeps its metadata and files; only its pin may go |
| `EngineGets.RunKeepsEtag` | src/goblin/storage/tier_manager.cpp:386-408 | Without a commit of the key, its entry is never of a newer version |
| `EngineRuns.ReadIsOneVersion` | src/goblin/storage/tier_manager.cpp:418-489 | `read()` always delivers the version indexed in its critical section, however late the disk reads run |
| `EngineRuns.RegionHasOneOwner` | src/goblin/storage/tier_manager.cpp:181-255 | In every reachable state each allocated region is owned by exactly one of an index entry, an open handle, an orphaned pin, and by one entry or one handle only |
| `EngineRuns.QuietRam` | src/goblin/storage/tier_manager.cpp:588-624 | With no pins and no open stores the allocated regions are exactly the resident heads and no pin entry is left |
| `EngineGets.PinnedBytesStay` | src/goblin/storage/tier_manager.cpp:588-624 | As long as a reader is open and its pin held, the pinned region stays allocated and its bytes never change |
| `EngineRuns.PoliciesTrackIndex` | src/goblin/storage/tier_manager.cpp:386-416 | In every reachable state object policy and index agree, head policy and resident heads agree, and an object no larger than the head is resident as a whole |
| `EngineExample.MixedVersionGet` | src/goblin/storage/tier_manager.cpp:510-540 | A concrete run, with memory for one head: the key's head is evicted for another object, whose store is given up, the snapshot finds no head, and a later store of the key brings one; the GET takes its first byte from that version and its last from the snapshot's. Every store of the run has a head if and only if there is room for it after its evictions |
| `EngineRuns.BeginHasHeadIff` | src/goblin/storage/tier_manager.cpp:219-250 | In every run a store is opened with a head if and only if evicting every head would leave room for one |
| `TierManager.PublishTier` | src/goblin/storage/tier_manager.cpp:93-107 | The rename loop goes through if and only if the chunks that name the files are on different drives; then every scratch name has moved over its live name and no other name is touched. Otherwise it stops with the renames before the failing one done |
| `TierManager.UnlinkTier` | src/goblin/storage/tier_manager.cpp:109-122 | The unlink loop removes exactly the object's names |
| `TierManager.Manager.FreeHeadRegion` | src/goblin/storage/tier_manager.cpp:618-624 | Frees the region, or marks it orphaned when pinned |
| `TierManager.Manager.Remove` | src/goblin/storage/tier_manager.cpp:542-547 | Reports whether the key was there; afterwards it is not, none of its file names is left, no other name is gone, and the whole state is that of the dropped object |
| `TierManager.Manager.TouchTtl` | src/goblin/storage/tier_manager.cpp:163-168 | Reports whether the key was there; if so it has the new expiry, and nothing else changes |
| `TierManager.Manager.ReapExpired` | src/goblin/storage/tier_manager.cpp:170-179 | With nobody in between, exactly the keys whose expiry is set and not later than now are gone, the other entries are as they were, and the count is right |
| `TierManager.Manager.DropOne` | src/goblin/storage/tier_manager.cpp:549-561 | The critical section of dropping an object, on index, policies, regions and names |
| `TierManager.Manager.EvictObject` | src/goblin/storage/tier_manager.cpp:563-569 | A victim exists exactly while the index is not empty, and goes from index and policies alike |
| `TierManager.Manager.EnforceObjectBound` | src/goblin/storage/tier_manager.cpp:563-569 | The loop ends with the index within a nonzero bound and evicts nothing when there is no bound |
| `TierManager.Manager.EvictOneHead` | src/goblin/storage/tier_manager.cpp:221-246 | One turn of the head eviction loop, keeping the invariant |
| `TierManager.Manager.ReserveHead` | src/goblin/storage/tier_manager.cpp:206-250 | The loop ends; a head is reserved if and only if some block has a free range for it once every head that can be evicted is; each eviction happens only while there is no room, and the region is one that no other touches |
| `TierManager.Manager.AllocateEvicting` | src/goblin/storage/tier_manager.cpp:221-250 | Evicting heads one by one finds room if and only if evicting all of them would leave room |
| `TierManager.Manager.EvictUntilRoom` | src/goblin/storage/tier_manager.cpp:224-240 | The eviction loop ends with room for the head or with no head left |
| `HeadRoom.ReservesIff` | src/goblin/storage/tier_manager.cpp:219-250 | What the loop comes to: a head if and only if there is room after the evictions, in a region not in use |
| `HeadRoom.EvictionKeepsLeft` | src/goblin/storage/tier_manager.cpp:221-246 | What would be left with every head evicted is the same before and after any one eviction |
| `HeadRoom.EvictionsKeepLeft` | src/goblin/storage/tier_manager.cpp:221-246 | Nor does any sequence of evictions change it |
| `HeadRoom.RoomGrows` | src/goblin/core/buffer_pool.cpp:151-167 | Fewer regions leave no less room |
| `HeadRoom.PoolRoom` | src/goblin/core/buffer_pool.cpp:151-167 | The pool can allocate if and only if some block has an aligned range that no region touches |
| `HeadRoom.RegionPlaced` | src/goblin/core/buffer_pool.cpp:151-167 | A region of the pool is an aligned range of its block that no other region touches |
| `TierManager.Manager.BeginStore` | src/goblin/storage/tier_manager.cpp:181-255 | Refused if and only if there is no staging buffer or, for an object that must live in RAM, no block has room for it with every evictable head gone; otherwise a head is reserved exactly when there is such room. Either way the state is that of the engine's step |
| `TierManager.Manager.AbortUncommitted` | src/goblin/storage/tier_manager.cpp:296-312 | Gives back the region and removes the scratch names, nothing else |
| `TierManager.Manager.PublishFiles` | src/goblin/storage/tier_manager.cpp:392-396 | The renames of both tiers go through if and only if in each the chunks that name the files are on different drives; otherwise exactly those before the failing one stay |
| `TierManager.Manager.InstallEntry` | src/goblin/storage/tier_manager.cpp:397-410 | The old head is retired, the entry is new with the next etag, the policies know |
| `TierManager.Manager.Commit` | src/goblin/storage/tier_manager.cpp:386-416 | Succeeds if and only if no etag is asked for, or the key has that etag and its expiry is 0 or later than now, and the renames go through; then the state is the publication followed by whole-object evictions down to the bound. A failing test changes nothing, a failing rename only the names it got to |
| `TierManager.Manager.OpenObject` | src/goblin/storage/tier_manager.cpp:65-91 | Opens exactly the files the live names lead to, and fails exactly when one is missing |
| `TierManager.Manager.OpenSnapshot` | src/goblin/storage/tier_manager.cpp:626-658 | A snapshot if and only if the key is there, its expiry is 0 or later than now, and no file of a tail behind its head is missing: metadata, pin and open files of one state. Exactly the object of a live key, and the head that is pinned, are marked visited |
| `TierManager.Manager.PinHeadOf` | src/goblin/storage/tier_manager.cpp:588-599 | One more holder of the head's region, and the head marked visited |
| `TierManager.Manager.UnpinHead` | src/goblin/storage/tier_manager.cpp:601-610 | One holder less; the last frees an orphan |
| `FlushPromise.SealedIsOnDisk` | src/goblin/storage/tier_manager.cpp:373-384 | A sealed write path is what the engine's flush step requires, unless chunks clash: the files hold the whole value |
| `ReadPromise.ReaderHasObject` | src/goblin/storage/tier_manager.cpp:510-540 | In every run, from the moment a reader has its files open, they hold the version it opened, striped as the event loop reads it: what `Pipeline.Conn` starts from |
| `ReadPromise.CopiedPart` | src/goblin/storage/tier_manager.cpp:510-540 | In the two cases in which a GET is of one version, what the planner copies of a piece is nothing, the whole piece, or ends on a 4 KiB boundary, and is of that version |
| `ReadPlan.AddDriveReads` | src/goblin/storage/tier_manager.cpp:480-489 | The reads of one tier continue the plan without gap or overlap |
| `ReadPlan.PlanPiece` | src/goblin/storage/tier_manager.cpp:510-540 | The whole piece is mapped: head bytes first, then reads that cover the rest in order, none crossing a stripe or tier boundary |
| `ReadPlan.NoSpillIff` | src/goblin/net/stream_loop.cpp:257-268 | No rounded-up read reaches into the next one's part of the buffer if and only if the disk part starts on a 4 KiB boundary or is a single read, whatever part of the piece the head supplied |
| `ReadPlan.FirstReadSpills` | src/goblin/net/stream_loop.cpp:257-268 | From an unaligned start, as an HTTP range may ask for, the first of several reads does reach into the second |
| `ReadPlan.SpillSource` | src/goblin/storage/drive_pool.cpp:12-16 | What it brings along belongs to the chunk one stripe row later, not to the next chunk |
| `ReadPlan.RoundedInChunk` | src/goblin/net/stream_loop.cpp:257-268 | From an aligned start each rounded-up read stays inside the buffer and inside its own chunk |
| `ReadPlan.Complete` | src/goblin/net/stream_loop.cpp:257-268 | A completed read puts the object's bytes into its part of the buffer and touches nothing beyond its rounded length |
| `ReadPlan.CompleteAll` | src/goblin/net/stream_loop.cpp:241-269 | With the reads completing in any order the buffer holds the planned object bytes and the copied head part is intact |
| `PaddedReads.AlignedPiece` | src/goblin/net/stream_loop.cpp:241-269 | Every piece of a GET whose tail starts on a 4 KiB boundary, read through buffers of a multiple of 4 KiB, is free of spills, and each of its rounded-up reads stays inside its own chunk |
| `PaddedReads.AlignedIsSafe` | src/goblin/net/stream_loop.cpp:241-269 | Such a GET is safe all the way, piece by piece to its end |
| `PaddedReads.SafePiece` | src/goblin/net/stream_loop.cpp:241-269 | A piece that starts on a 4 KiB boundary or lies in one chunk has no spill, wherever in it the resident head ends |
| `PaddedReads.RoundingIff` | src/goblin/net/stream_loop.cpp:257-268 | A piece ends up right under every order and length of completions if and only if every byte that a rounded-up read may bring along into the piece equals the one that belongs there |
| `PaddedReads.RoundingByLayoutIff` | src/goblin/net/stream_loop.cpp:257-268 | Whatever the files hold, the piece is right under every schedule if and only if its disk part starts on a 4 KiB boundary, or is one read, or the file of the first read ends there or goes on with what the second read wants |
| `PaddedReads.OnlyFirstSpills` | src/goblin/net/stream_loop.cpp:257-268 | Only the first read of a piece can reach into another one's part, and only into the second's |
| `PaddedReads.NoSpillIsHarmless` | src/goblin/net/stream_loop.cpp:257-268 | Without a spill nothing is brought along |
| `PaddedReads.HarmfulGoesWrong` | src/goblin/net/stream_loop.cpp:257-268 | A completion that may write a wrong byte does so when it comes last |
| `PaddedReads.UnalignedGoesWrong` | src/goblin/net/stream_loop.cpp:257-268 | Four chunks on two drives and a range from byte 100: an order of completions after which the piece holds a byte of another chunk |
| `Pipeline.PlannedOk` | src/goblin/net/stream_loop.cpp:241-269 | Planning fills a lane that is free, never one whose piece is unsent, and keeps the pieces queued in object order |
| `Pipeline.ReadDoneOk` | src/goblin/net/stream_loop.cpp:301-316 | A completed piece is ready for its turn, with what its reads brought |
| `Pipeline.PieceSentOk` | src/goblin/net/stream_loop.cpp:362-367 | Freeing a sent lane moves the window on by exactly its piece, with one lane or two |
| `Pipeline.ReadingWrites` | src/goblin/net/stream_loop.cpp:257-268 | Whatever lands where an outstanding read may write, the copied head part and the bytes of the reads that are back stay right in a safe piece |
| `Pipeline.ReadingDone` | src/goblin/net/stream_loop.cpp:301-316 | With all reads of a safe piece back the buffer holds the object's bytes |
| `Pipeline.PieceDelivered` | src/goblin/net/stream_loop.cpp:301-316 | A completed piece becomes part of the delivered value, changes nothing else of it, and in a safe tail with no short read is the object's |
| `Pipeline.NeverStuck` | src/goblin/net/stream_loop.cpp:274-299 | With bytes left and nothing in flight there is always a piece to send or a lane to fill |
| `Pipeline.Conn.constructor` | src/goblin/net/stream_loop.cpp:151-190 | A hit: header submitted, lanes borrowed when a tail remains |
| `Pipeline.Conn.PlanLaneRead` | src/goblin/net/stream_loop.cpp:241-269 | Plans the next piece into a free lane, with the reads the planner gives and the head part copied; at most one batch of reads is in flight |
| `Pipeline.Conn.PlanFacts` | src/goblin/net/stream_loop.cpp:241-269 | The planned reads of a piece cover it, and in a safe tail have no spill; so is the rest of the tail; without reads the piece is complete at once |
| `Pipeline.Conn.PumpOnce` | src/goblin/net/stream_loop.cpp:274-299 | One round makes progress or leaves the connection waiting for something in flight |
| `Pipeline.Conn.PumpStream` | src/goblin/net/stream_loop.cpp:274-299 | Terminates; on return with bytes left a send or a read batch is in flight; nothing has been sent out of order |
| `Pipeline.Conn.EnterStream` | src/goblin/net/stream_loop.cpp:233-237 | The tail continues where header and head ended |
| `Pipeline.Conn.OnValueSent` | src/goblin/protocol/memcache/event_loop.cpp:90-95 | Called only when the whole value is out; the trailer follows, or the GET is finished |
| `Pipeline.Conn.FinishGet` | src/goblin/net/stream_loop.cpp:431-437 | Lanes are released with nothing in flight and the response is complete |
| `Pipeline.Conn.HeaderSent` | src/goblin/net/stream_loop.cpp:383-401 | Short sends of the header; then the pinned head if it covers part of the range, else the tail |
| `Pipeline.Conn.HeadSent` | src/goblin/net/stream_loop.cpp:371-382 | Short sends of the head; the tail continues from its end |
| `Pipeline.Conn.TrailerSent` | src/goblin/net/stream_loop.cpp:383-403 | Short sends of the trailer, then the GET is finished |
| `Pipeline.Conn.PieceMoved` | src/goblin/net/stream_loop.cpp:355-370 | The peer gets exactly the next object bytes; a short send resubmits the rest, a full one frees the lane |
| `Pipeline.Conn.KernelWrites` | src/goblin/net/stream_loop.cpp:257-268 | Whatever the kernel writes where an outstanding read may, at any time, changes neither the invariant nor what is being sent |
| `Pipeline.Conn.BytesArrive` | src/goblin/net/stream_loop.cpp:257-268 | A read completes with its bytes of the object in their places, or with some of them, and keeps the invariant |
| `Pipeline.Conn.ReadCounted` | src/goblin/net/stream_loop.cpp:301-307 | A read that is not the last of its batch is counted, with its error if it has one |
| `Pipeline.Conn.PieceRead` | src/goblin/net/stream_loop.cpp:301-316 | The last read of a batch without error makes the piece ready, as the buffer holds it now |
| `Pipeline.Conn.OnRead` | src/goblin/net/stream_loop.cpp:301-316 | The completion of any outstanding read, with its bytes, with some of them or with an error, keeps the invariant; a short read is taken for a whole one; a failed batch aborts, and then the lanes are released with an operation in flight exactly when a send was |
| `Pipeline.Conn.OnSend` | src/goblin/net/stream_loop.cpp:339-408 | Any send completion, short or EAGAIN, keeps the invariant and adds exactly the sent bytes; it closes the connection if and only if the result is zero or another error |
| `Pipeline.Conn.SentIsPrefix` | src/goblin/net/stream_loop.cpp:233-408 | What has been sent is always a prefix of header, delivered value and trailer, and all of it exactly when the GET is done; in a safe tail with no short read the delivered value is the object's |
| `Pipeline.Conn.Serve` | src/goblin/net/stream_loop.cpp:233-408 | Under every order of completions and every pattern of short sends and short reads the run ends, and unless the connection failed the peer has received header, value and trailer once, in order and in full, each piece as its completed reads left it; when every piece is safe to round up and no read was short, that is exactly the response |
| `Pipeline.Conn.AlignedTailIsSafe` | src/goblin/net/stream_loop.cpp:241-269 | A tail that starts on a 4 KiB boundary, through buffers of a multiple of 4 KiB, is safe |
| `Waiters.Conservation` | src/goblin/net/stream_loop.cpp:410-422 | Free buffers plus held lanes equal the pool count, and a buffer is held exactly when it is in a lane of a connection |
| `Waiters.BorrowPartition` | src/goblin/net/stream_loop.cpp:160-179 | Taking a buffer into a lane keeps every buffer in exactly one place |
| `Waiters.ReleasePartition` | src/goblin/net/stream_loop.cpp:410-422 | So does giving it back |
| `RequestLoop.Handle` | src/goblin/protocol/memcache/event_loop.cpp:99-381 | The request loop of a connection ends; it parks on a GET only with the pool empty, borrows no more than is free, and only to stream |
| `RequestLoop.ClosesIff` | src/goblin/protocol/memcache/event_loop.cpp:371-381 | The loop closes the connection if and only if its last turn starts nothing, and the command line is overlong, or the client has quit and no reply is pending |
| `RequestLoop.OwnIsEnough` | src/goblin/protocol/memcache/event_loop.cpp:99-381 | What the loop does depends on the turns it takes for this connection alone, and it leaves the others |
| `RequestLoop.GetsCloseIff` | src/goblin/net/stream_loop.cpp:218-230 | A drain of parked GETs closes as many connections as there are served ones whose own turns meet that condition; so it closes somebody if and only if one does |
| `RequestLoop.SetsCloseIff` | src/goblin/net/stream_loop.cpp:195-216 | The same for a drain of parked writes |
| `RequestLoop.PoliteGets` | src/goblin/net/stream_loop.cpp:218-230 | A drain of parked GETs closes nobody as long as no client quits and no command line is overlong |
| `RequestLoop.PoliteSets` | src/goblin/net/stream_loop.cpp:195-216 | Neither does a drain of parked writes |
| `Waiters.Loop.constructor` | src/goblin/net/stream_loop.cpp:17-23 | All buffers free, nobody connected or queued |
| `Waiters.Loop.BeginGet` | src/goblin/net/stream_loop.cpp:151-190 | Parks if and only if a tail remains and the pool is empty; otherwise a hit takes no buffer without a tail, two if read-ahead is on and more than one is free, else one |
| `Waiters.Loop.ParkGet` | src/goblin/net/stream_loop.cpp:161-168 | Queued once, at the back, holding nothing |
| `Waiters.Loop.ReleaseLanes` | src/goblin/net/stream_loop.cpp:410-422 | All lanes go back, and the pool grows by their number |
| `Waiters.Loop.OneRequest` | src/goblin/protocol/memcache/event_loop.cpp:101-369 | One pass of the loop: goes round, breaks out or parks, with exactly the state the reference has |
| `Waiters.Loop.Process` | src/goblin/protocol/memcache/event_loop.cpp:99-381 | The connection ends as the reference says: parked exactly once, streaming, waiting for a send or a receive, or closing with nothing in flight and no buffer held |
| `Waiters.Loop.ProcessHere` | src/goblin/net/stream_loop.cpp:64-83 | In a completion handler a connection that the loop closes is retired at once, so nobody gets stuck |
| `Waiters.Loop.RetryGet` | src/goblin/net/stream_loop.cpp:218-229 | The first parked GET goes to the back if it still finds no buffer; else it streams, or its connection goes on with other requests |
| `Waiters.Loop.RetrySet` | src/goblin/net/stream_loop.cpp:195-215 | The first parked write stays if there is still no staging buffer; else its connection goes on with its body |
| `Waiters.Loop.DrainGetWaiters` | src/goblin/net/stream_loop.cpp:218-230 | Terminates with an empty queue or an empty pool; the queue afterwards is the old one and those parked meanwhile, less the served in front, with the one put back moved to the end, so that the order is kept if and only if nobody was put back or nobody else was left; exactly the connections it closes become stuck, so nobody is stuck afterwards if and only if nobody was and no served connection's own turns meet the closing condition |
| `Waiters.Loop.DrainSetWaiters` | src/goblin/net/stream_loop.cpp:195-216 | Terminates, and is first come, first served: the queue afterwards is the old one and those parked meanwhile, less the served in front; exactly the connections it closes become stuck, so nobody is stuck afterwards if and only if nobody was and no served connection's own turns meet the closing condition |
| `Waiters.Loop.WakeUp` | src/goblin/net/stream_loop.cpp:84-88 | After every turn nobody waits for a buffer while one is free; the number of stuck connections has grown by exactly those the two drains close |
| `Waiters.Loop.NoLostWakeUp` | src/goblin/net/stream_loop.cpp:84-88 | While a GET waits, some connection holds a buffer and has an operation in flight, stuck connections or not |
| `Waiters.Loop.GetQueueRotates` | src/goblin/net/stream_loop.cpp:218-230 | A drain with an empty pool and a hit in front moves the front to the back |
| `Waiters.Loop.Accept` | src/goblin/net/stream_loop.cpp:102-117 | A new connection with its receive in flight |
| `Waiters.Loop.OnRecv` | src/goblin/net/stream_loop.cpp:136-143 | A receive is processed, and retires the connection if it failed or if processing closes it; nobody gets stuck |
| `Waiters.Loop.ReplySent` | src/goblin/net/stream_loop.cpp:383-407 | After a reply the connection receives, or is retired if the client has quit |
| `Waiters.Loop.FinishGet` | src/goblin/net/stream_loop.cpp:431-437 | Buffers go back with nothing in flight on them, and the next requests are processed; nobody gets stuck |
| `Waiters.Loop.Retire` | src/goblin/net/stream_loop.cpp:452-461 | A closing connection with nothing in flight goes, with all its buffers given back |
| `Waiters.Loop.OnClosing` | src/goblin/net/stream_loop.cpp:64-83 | A closing connection keeps its buffers until its last operation is back, and then is gone |
| `Waiters.Loop.AbortGet` | src/goblin/net/stream_loop.cpp:439-444 | When the last read of a batch fails, the lanes go back and every buffer is still in exactly one place; the connection is gone if nothing else was in flight; the invariant survives if and only if no piece was being sent, and otherwise the buffer being sent from is in the pool |
| `Waiters.Loop.Run` | src/goblin/net/stream_loop.cpp:58-98 | Over any number of turns with any completions: buffers stay in one place, a GET waits only if the pool is empty, and a stuck connection stays as it is for good |
| `Waiters.QuitBehindSilentSet` | src/goblin/protocol/memcache/event_loop.cpp:371-381 | A parked `set` with `noreply`, retried with its body there and `quit` behind it: the drain closes the connection |
| `Waiters.NeverRetired` | src/goblin/net/stream_loop.cpp:84-88 | That connection is still there, closing with nothing in flight, after any number of turns |
| `Framing.FindMore` | src/goblin/protocol/memcache/event_loop.cpp:160-162 | The first line of a buffer is the first line of whatever it grows into |
| `Framing.Exec` | src/goblin/protocol/memcache/event_loop.cpp:99-381 | The whole-stream reference leaves nothing that is complete |
| `Framing.ExecMore` | src/goblin/protocol/memcache/event_loop.cpp:99-381 | Running a prefix and then the rest behind its leftovers equals running everything at once |
| `Framing.NeverOverlongIff` | src/goblin/protocol/memcache/event_loop.cpp:371-374 | No way of cutting the stream trips the line-length test if and only if the line end comes before position 8192; a line of exactly 8 KiB can already trip it |
| `Framing.Session.EatBody` | src/goblin/protocol/memcache/event_loop.cpp:104-114 | Body bytes move to the store in any pieces without changing what is pending |
| `Framing.Session.FinishBody` | src/goblin/protocol/memcache/event_loop.cpp:115-156 | One reference step. The object is committed, with the bytes of its body, if and only if the two bytes behind them are a line end, the store was let in and begun, and no write failed |
| `Framing.Session.TakeLine` | src/goblin/protocol/memcache/event_loop.cpp:160-369 | One reference step for every kind of command line |
| `Framing.Session.ParkGet` | src/goblin/protocol/memcache/event_loop.cpp:317-317 | A parked GET is still due, in its place |
| `Framing.Session.Process` | src/goblin/protocol/memcache/event_loop.cpp:99-381 | Terminates with everything complete carried out, and the session still leads where the whole stream leads |
| `Framing.Session.OnRecv` | src/goblin/net/stream_loop.cpp:136-143 | A received piece of any size keeps that |
| `Framing.Session.OnStreamed` | src/goblin/net/stream_loop.cpp:431-437 | So does the end of a streamed GET, after which pipelined requests go on |
| `Framing.Session.OnWakeGet` | src/goblin/net/stream_loop.cpp:218-230 | So does waking a parked GET |
| `Framing.Session.OnWakeSet` | src/goblin/net/stream_loop.cpp:195-216 | So does waking a parked store |
| `Framing.Session.Complete` | src/goblin/protocol/memcache/event_loop.cpp:99-381 | When all is received, or after quit, operations and bytes sent are the reference's |
| `Framing.Run` | src/goblin/protocol/memcache/event_loop.cpp:99-381 | For every cutting of the stream and every pattern of parking, the store operations and the bytes sent depend on the stream alone |
| `FramingLaw.Pipelined` | src/goblin/protocol/memcache/event_loop.cpp:99-381 | For every list of well-formed requests, of any kind, the reference carries out the operations of each in order, sends the reply of each in order, and leaves nothing. Operations and replies are defined on the list: a store is `Admit`, `Begin` and `Commit` with its own line and body, cut short where the engine refuses it, cannot begin it or fails a write, or where its line end is missing |
| `FramingLaw.RequestsDone` | src/goblin/protocol/memcache/event_loop.cpp:99-381 | The same from any state between two requests, whatever bytes follow |
| `FramingLaw.QuitEnds` | src/goblin/protocol/memcache/event_loop.cpp:99-381 | After `quit` nothing more is carried out or answered |
| `FramingLaw.Converse` | src/goblin/protocol/memcache/event_loop.cpp:99-381 | The event loop does exactly that for every cutting of the stream and every pattern of parking, with lines below 8 KiB |
| `KeyPath.PercentDecode` | src/goblin/http/key_derivation.cpp:18-34 | The loop is left-to-right replacement of well-formed escapes |
| `KeyPath.DecodeEncode` | src/goblin/http/key_derivation.cpp:18-34 | Decoding undoes percent-encoding of every byte string |
| `KeyPath.CanonicalPath` | src/goblin/http/key_derivation.cpp:36-59 | The loop with its segment stack computes the canonical path of the decoded or literal input |
| `KeyPath.CanonicalSegments` | src/goblin/http/key_derivation.cpp:36-59 | The result starts with a slash and has no empty, `.` or `..` segment |
| `KeyPath.Idempotent` | src/goblin/http/key_derivation.cpp:36-59 | Canonicalising twice is canonicalising once |
| `KeyPath.AgreesWithStandard` | src/goblin/http/key_derivation.cpp:36-59 | On absolute paths without empty segments it is remove_dot_segments of section 5.2.4 of RFC 3986, less a slash at the end |
| `KeyPath.NormalizeHost` | src/goblin/http/key_derivation.cpp:61-68 | The host without port, trailing dots and upper case |
| `KeyPath.HostIdempotent` | src/goblin/http/key_derivation.cpp:61-68 | Normalising twice is normalising once; no colon and no trailing dot remain |
| `KeyPath.HostIgnores` | src/goblin/http/key_derivation.cpp:61-68 | A port and a dot at the end make no difference |
| `KeyPath.HostLetters` | src/goblin/http/key_derivation.cpp:61-68 | No capital is left, and every letter is the one at its place in the name, capital or not |
| `KeyPath.HostWhole` | src/goblin/http/key_derivation.cpp:61-68 | Without port and dot at the end nothing is cut off |
| `KeyPath.DeriveKey` | src/goblin/http/key_derivation.cpp:70-101 | The key of a request, absent exactly when virtual hosting finds no host; the next three rows say what it depends on |
| `KeyPath.DirectoryIsItsIndex` | src/goblin/http/key_derivation.cpp:83-91 | A directory, with whatever query or fragment, has the key of the target with the index name written out |
| `KeyPath.FragmentIgnored` | src/goblin/http/key_derivation.cpp:72-73 | A fragment changes nothing |
| `KeyPath.QueryKept` | src/goblin/http/key_derivation.cpp:75-92 | A query is appended as it is if queries are kept, and changes nothing otherwise |
| `KeyPath.DeriveKeyFromRelpath` | src/goblin/http/key_derivation.cpp:103-119 | The key of a file below the source directory |
| `KeyPath.PathKeysCoincide` | src/goblin/http/key_derivation.cpp:70-119 | For every path free of `%`, `?`, `#` and a slash at the end, request key and file key are the same under all options of path mode |
| `KeyPath.VhostKeysCoincide` | src/goblin/http/key_derivation.cpp:70-119 | And with virtual hosts, for a directory named after the host |
| `Sha256.Expand` | src/goblin/crypto/sha256.cpp:22-33 | The array is the message schedule of section 6.2.2 of FIPS 180-4 |
| `Sha256.Mix` | src/goblin/crypto/sha256.cpp:34-45 | The shifting variables are the standard's after 64 rounds |
| `Sha256.Sha256Block` | src/goblin/crypto/sha256.cpp:21-48 | In place, the state becomes its compression with the block |
| `Sha256.PadSplits` | src/goblin/crypto/sha256.cpp:57-69 | The padded message is the full blocks of the message followed by rest and padding |
| `Sha256.FillTail` | src/goblin/crypto/sha256.cpp:60-69 | One or two blocks, exactly the rest of the message and the padding of section 5.1.1 of FIPS 180-4 |
| `Sha256.Sha256` | src/goblin/crypto/sha256.cpp:52-81 | For every message below 2^61 bytes the digest is the standard's; the rows below tie the standard's constants, words and functions to numbers and bits |
| `Sha256Constants.RoundConstants` | src/goblin/crypto/sha256.cpp:8-17 | Each round constant is the first 32 bits of the fractional part of the cube root of its prime, the one with as many primes below it as there are constants before (section 4.2.2 of FIPS 180-4) |
| `Sha256Constants.InitialHash` | src/goblin/crypto/sha256.cpp:53-54 | The initial hash value is the same of the square roots of the first eight primes (section 5.3.3 of FIPS 180-4) |
| `Sha256Words.RotrBit` | src/goblin/crypto/sha256.cpp:19 | Bit i of a rotation by n is bit i + n modulo 32 |
| `Sha256Words.LowSigma0Bit` | src/goblin/crypto/sha256.cpp:30 | Bit i is the parity of bits i + 7 and i + 18 modulo 32 and of bit i + 3 |
| `Sha256Words.LowSigma1Bit` | src/goblin/crypto/sha256.cpp:31 | Bit i is the parity of bits i + 17 and i + 19 modulo 32 and of bit i + 10 |
| `Sha256Words.Sigma0Bit` | src/goblin/crypto/sha256.cpp:40 | Bit i is the parity of bits i + 2, i + 13 and i + 22 modulo 32 |
| `Sha256Words.Sigma1Bit` | src/goblin/crypto/sha256.cpp:37 | Bit i is the parity of bits i + 6, i + 11 and i + 25 modulo 32 |
| `Sha256Words.ChBit` | src/goblin/crypto/sha256.cpp:38 | Each bit is chosen between the second and third word by the first |
| `Sha256Words.MajBit` | src/goblin/crypto/sha256.cpp:41 | Each bit is the majority of the three |
| `Sha256Words.BitsDecide` | src/goblin/crypto/sha256.cpp:19-45 | Two words with the same bits are equal, so the bits say all about these functions |
| `Sha256Words.AddIsModular` | src/goblin/crypto/sha256.cpp:39-47 | Addition of words is addition of their numbers modulo 2^32 |
| `Sha256Words.WordIsNumber` | src/goblin/crypto/sha256.cpp:24-27 | A word of a block is the number its four bytes are in base 256 |
| `Sha256Words.LengthField` | src/goblin/crypto/sha256.cpp:67-69 | The eight bytes of the length field are the number of bits in base 256 |
| `Sha256Words.DigestReadsBack` | src/goblin/crypto/sha256.cpp:73-79 | The digest, read back four bytes at a time, is the eight words of the state |
| `Sha256Vector.AbcVector` | tests/test_crypto.cpp:14 | The digest of `abc` is the published one, worked out through padding, schedule and all 64 rounds |

## Left out

- io_uring, sockets, O_DIRECT, TLS, signals and threads: foreign calls, represented by nondeterministic completions and atomic lock steps.
- Submission queue full, and renames that fail for other reasons than a missing scratch file: submissions and other renames succeed.
- Disk-space leaks: replacing an object by one with a smaller layout leaves old live names on drives the new layout does not use; readers never open them.
- Completions that arrive after a connection was closed: `Pipeline` ends at the close; `Waiters` still counts their operations and keeps the buffers until the last one is back, and takes their handlers to do nothing else. After an abort with a send in flight the handler indexes lane -1, which has no counterpart here.
- Pipeline.Conn.Serve: bounds the number of EAGAIN results in a run, because the code retries without end otherwise.
- Pipeline.Conn.constructor: head and files are of one version here; `EngineGets.GetIsOneVersion` and `ReadPromise` say when a GET's are, and that its files then are as this constructor asks.
- StripedIo.StripedPwrite: writing to a drive that was not opened is one of the failing writes here.
- BufferPool.Pool.constructor: requires blocks of at most 2^32 bytes, because the code casts offsets to 32 bits.
- TierManager.Manager.Commit: the final flush before the lock is `WritePath.StoreHandle.FinishFlush`; arming the sweep and the staging buffer's return are not modelled.
- TierManager.Manager.BeginStore: the staging pool is a flag, and creating scratch files is the engine's `Begin` step.
- EngineInv.StepInv: the flush step needs the files to hold the value. The code flushes and commits a store whose chunks clash behind the first row as well, so runs with such a store are outside every theorem about runs of the engine. A commit whose renames stop half way is not a step either; `TierManager.Manager.Commit` says what it leaves.
- Waiters.Loop.Process: what the buffered requests are and what the storage engine answers are the environment's turns; `Framing` is about the requests themselves. The HTTP loop differs in that it has no stores and answers every request.
- Waiters.Loop.Run: leaves out a failed read under a piece being sent, after which the invariant is gone (`Waiters.Loop.AbortGet`).
- Framing.Run: the engine's answers are a function of this connection's own operations, line parsing is a function of the line, and write failures are a body position chosen when the store begins.
- Sha256.Sha256: messages of 2^61 bytes or more are excluded, as the standard excludes them.
- Wrap-around of etags, reference counts and store numbers: they are unbounded here.
- Sharding inside the index, counters and `stats`, configuration checks, content types, Range parsing and resolution, command parsing: they would only add easy members.
- The blocking server's GET in several chunks: it takes a snapshot per chunk, so only the property of a single `read()` applies. The unlocked `open_read` is not modelled.
- Time: expiry takes the current time as an argument of each step, which need not grow along a run; stall timeouts and the shutdown deadline are left out.
- TierManager.Manager.ReapExpired: the flag that skips the sweep while no expiry was ever set is not modelled.
