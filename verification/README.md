# Verified models of cornus

cornus runs containers whose files live on another machine. Its chunk cache, its caretaker sidecar,
its flight recorder and a few decision procedures carry most of the state that can go wrong. This
project models them in Dafny and proves what they keep over every input, every run and every
interleaving.

`dafny verify dfyconfig.toml` checks everything.

## What is modelled

- **The chunk cache, two backends** (`pkg/blockcache`). `DiskStore.dfy` and `MemStore.dfy` are classes
  that update a backing file, a sidecar index, chunk buffers and bitmaps in place, as the source does;
  each method is proved against a pure specification (`DiskModel.dfy`, `MemModel.dfy`). The bitmaps of
  `Bitmaps.dfy` are proved to be sets. Over those specifications:
  - `DiskCoherence.dfy`, `MemCoherence.dfy`: whatever the cache serves is the caller's current bytes,
    over any run of fills, writes, drops, resizes and invalidations. The law is false of a partial
    `WriteThrough` whose first or last sub-block is not cached and not covered by the write. The exact
    condition on the two edge sub-blocks is proved in both directions, about what reads serve: when it
    fails, there is a file that agrees with the cache and a short continuation after which a read is
    wrong; and a plain run from nothing cached gets there.
  - `SubBlockWrites.dfy`: the proxy's sub-block mode, which hashes every touched sub-block against the
    caller's after writing through and drops the chunk on a mismatch. That repairs unsafe edges, except
    in a last sub-block that the backing file does not reach, which is not hashed. Again the exact
    condition is proved both ways, up to collisions.
  - `Reconciliation.dfy`: the same checks made later. Writes have no condition at all; the sub-blocks they
    may spoil come under doubt, and what is served outside the doubt is the caller's bytes over any run of
    operations and checks. A write over several chunks, checked after all its pieces, and a batch of
    checks at fsync are proved to settle every doubt that the backing file reaches.
  - `DiskProperties.dfy`: the index stays well formed after any calls; `WriteChunk` heals a diverged
    chunk; the sub-block constant must divide the chunk size.
  - `DiskRetention.dfy`, `MemRetention.dfy`, `RecordedHashes.dfy`: the other half of a cache's promise. After
    any calls of either regime, what was given to the store is served, byte for byte the last given, until
    an operation has a reason to forget it; a verified write keeps a chunk that agrees and leaves the
    others alone; a known hash is the hash of the bytes it stands for.
  - `CrashSafety.dfy`: a fill that stops at any step, by error or crash, with torn and reordered
    unsynced writes and renames that may be lost, never leaves an index that claims bytes the data file
    does not have.
- **Reads through the cache** (`CacheReads.dfy`, `SharedFlights.dfy`): the sequential `ReadAt` over the
  on-disk store class, with short reads and failing store calls, and any interleaving of concurrent
  readers sharing flights. `FlightProgress.dfy`: they are never stuck, and find again what was stored.
- **Eviction** (`Prune.dfy`) and **cache file names** (`FileKeys.dfy`).
- **The caretaker** (`UdpFlows.dfy`, `DynamicReach.dfy`, `AllowSet.dfy`, `MountRecords.dfy`): the UDP flow
  table under its threads, the catalog reconcile loop with its DNS overlay, the fail-static allow-set,
  and write-ahead records around mounts.
- **The flight recorder** (`ActivityLog.dfy`, `ActivityTail.dfy`): recovery across incarnations, and
  tailing against batch reading.
- **Decision procedures**: claim lookup (`ClaimLookup.dfy`), screen regions and rule choice
  (`ScreenLines.dfy`, `ScreenRegions.dfy`).

Conventions. Bytes and file offsets are unbounded numbers. A hash is an arbitrary function of the bytes;
where it matters, the theorem's conclusion says "or these two different chunks hash alike". `At(s, i)` is
the byte of `s` at `i`, zero past the end. Clocks, lookups, binds, fetches and I/O results are parameters
or step labels, so every theorem holds for every outcome of them.

Where a promise does not always hold, the exact condition is proved, both ways:
`DiskCoherence.WriteThroughExact`, `MemCoherence.WriteThroughExact`, `SubBlockWrites.VerifiedExact`,
`MemCoherence.StaleBitmapExact`, `DynamicReach.OverlayExact`, `AllowSets.UnionLawExact`,
`ScreenLines.OffsetExact`, `ScreenLines.FromResplits`, `ScreenLines.UpToResplits`, `FileKeys.UniqueExact`
and `MountRecords.MountsAreRecorded`. `DiskProperties.UnalignedChunkSizeBreaks` covers every chunk size that
the on-disk store's coherence theorems exclude; the in-memory store's hold for every chunk size.

## Model

| member | source | states |
|---|---|---|
| Bytes.SpanIs | pkg/blockcache/blockcache.go:184-189 | a non-empty sub-block span holds exactly the sub-blocks that meet the byte range |
| Bytes.SubInOneChunk | pkg/blockcache/diskstore.go:253-269 | with an aligned chunk size no sub-block straddles two chunks |
| Bytes.ChunkSubs | pkg/blockcache/diskstore.go:253-260 | the sub-block range of a chunk holds exactly the sub-blocks of its bytes |
| Bytes.NumChunksIs | pkg/blockcache/diskstore.go:109-114 | chunk c is counted exactly when it starts before the end of the file |
| Bitmaps.SetBit | pkg/blockcache/diskstore.go:124 | as sets of indices, setting a bit adds exactly that index |
| Bitmaps.ClearBit | pkg/blockcache/diskstore.go:126-130 | clearing removes exactly that index, and is harmless past the end |
| Bitmaps.GrowTo | pkg/blockcache/diskstore.go:133-144 | growing makes an index addressable and adds no member |
| Bitmaps.Truncate | pkg/blockcache/diskstore.go:496-543 | truncating keeps exactly the indices that still fit |
| Bitmaps.SetBitRange | pkg/blockcache/diskstore.go:253-260 | the loop of setBit adds exactly an inclusive range |
| Bitmaps.ClearBitRange | pkg/blockcache/diskstore.go:263-269 | the loop of clearBit removes exactly an inclusive range |
| Bitmaps.BmSet | pkg/blockcache/blockcache.go:193-197 | on 64-bit words, adds exactly that index and ignores one past the words |
| Bitmaps.BmSetRange | pkg/blockcache/memstore.go:145-160 | the loop of bmSet adds exactly an inclusive range |
| Bitmaps.BmRangeAllSet | pkg/blockcache/blockcache.go:205-212 | true exactly when the whole range is in the set the words denote |
| DiskStores.DiskStore.Get | pkg/blockcache/diskstore.go:174-206 | serves what the specification serves, and changes nothing the specification sees |
| DiskStores.DiskStore.GetSub | pkg/blockcache/diskstore.go:273-293 | a hit exactly when every sub-block of the range is marked and the backing holds the bytes |
| DiskStores.DiskStore.ChunkHash | pkg/blockcache/diskstore.go:467-477 | the stored hash of a present chunk, unknown where the array is shorter, and none for an absent chunk |
| DiskStores.DiskStore.GetScratch | pkg/blockcache/diskstore.go:68-79 | the pooled buffer or a new one, long enough; its content is left arbitrary |
| DiskStores.DiskStore.ReadData | pkg/blockcache/diskstore.go:700-711 | fills the requested part of the buffer from the backing, or fails when it is too short |
| DiskStores.DiskStore.HashRange | pkg/blockcache/diskstore.go:434-464 | the hash of exactly the bytes of the range, whatever the pooled buffer held |
| DiskStores.DiskStore.FreshIndex | pkg/blockcache/diskstore.go:664-680 | an index that marks nothing, sized for the file |
| DiskStores.DiskStore.LoadOrFresh | pkg/blockcache/diskstore.go:634-662 | the stored entry, or an empty one over a truncated backing |
| DiskStores.DiskStore.Grow | pkg/blockcache/diskstore.go:133-144 | room for a chunk in bitmap and hashes, with no new member |
| DiskStores.DiskStore.PutHashed | pkg/blockcache/diskstore.go:216-239 | the new entry is the specification's whole-chunk fill |
| DiskStores.DiskStore.Put | pkg/blockcache/diskstore.go:210-212 | a whole-chunk fill carrying the hash of the bytes |
| DiskStores.DiskStore.PutSub | pkg/blockcache/diskstore.go:297-316 | the new entry is the specification's ranged fill |
| DiskStores.DiskStore.WriteThrough | pkg/blockcache/diskstore.go:384-431 | the new entry is the specification's: untouched, replaced whole, or spliced in place with its hash cleared |
| DiskStores.DiskStore.WriteChunk | pkg/blockcache/diskstore.go:319-378 | the new entry is the specification's read-merge-verify; fails exactly when the backing is too short, leaving the index |
| DiskStores.DiskStore.Drop | pkg/blockcache/diskstore.go:480-493 | clears exactly the chunk's marks |
| DiskStores.DiskStore.Resize | pkg/blockcache/diskstore.go:496-543 | the new entry is the specification's: boundary chunk, everything past it and the old last chunk cleared, backing cut |
| DiskStores.DiskStore.Invalidate | pkg/blockcache/diskstore.go:546-554 | nothing is left of the entry |
| DiskCoherence.SubsPresentIff | pkg/blockcache/diskstore.go:273-293 | GetSub's test over sub-blocks holds exactly when every byte of the range is present |
| DiskCoherence.GetSubTruth | pkg/blockcache/diskstore.go:273-293 | in a coherent state a ranged hit is the caller's bytes, whole |
| DiskCoherence.GetTruth | pkg/blockcache/diskstore.go:174-206 | in a coherent state a whole-chunk hit is the caller's bytes |
| DiskCoherence.HashRangeTruth | pkg/blockcache/diskstore.go:434-464 | in a coherent state HashRange hashes the caller's bytes |
| DiskCoherence.PutChunkKeeps | pkg/blockcache/diskstore.go:221-239 | a whole-chunk fill or full-cover write keeps coherence |
| DiskCoherence.PutSubKeeps | pkg/blockcache/diskstore.go:297-316 | a ranged fill keeps coherence |
| DiskCoherence.ResizeKeeps | pkg/blockcache/diskstore.go:496-543 | Resize keeps coherence with the truncated or extended file |
| DiskCoherence.WriteThroughKeeps | pkg/blockcache/diskstore.go:384-431 | WriteThrough keeps coherence when both edge sub-blocks are safe |
| DiskCoherence.WriteThroughBreaks | pkg/blockcache/diskstore.go:408-431 | with an unsafe edge there are a file consistent with the cache and at most two safe operations after which GetSub serves a byte that file does not have |
| DiskCoherence.WriteThroughExact | pkg/blockcache/diskstore.go:384-431 | edges safe if and only if, for every file consistent with the cache, every read after the write is true and stays so whatever safe operations follow |
| DiskCoherence.UnsafeEdgeReached | pkg/blockcache/diskstore.go:408-431 | three well-posed operations from nothing cached end in a wrong read, for every file whose byte there is not 0 |
| DiskCoherence.StepKeeps | pkg/blockcache/diskstore.go:174-554 | every safe operation keeps coherence |
| DiskCoherence.RunKeeps | pkg/blockcache/diskstore.go:174-554 | so does every run of them |
| DiskCoherence.RunReadsTrue | pkg/blockcache/diskstore.go:273-464 | from nothing cached, after any such run GetSub, Get and HashRange serve exactly the caller's current bytes |
| DiskProperties.PutSubReadsBack | pkg/blockcache/diskstore.go:273-316 | a ranged fill is read back by GetSub |
| DiskProperties.PutReadsBack | pkg/blockcache/diskstore.go:174-239 | a whole-chunk fill is read back by Get, and its hash is recorded |
| DiskProperties.DropReadsAbsent | pkg/blockcache/diskstore.go:480-493 | after Drop no read of the chunk hits |
| DiskProperties.WriteChunkHeals | pkg/blockcache/diskstore.go:319-378 | after a successful WriteChunk with the caller's true hash the chunk is the caller's, or absent, or the hash collided |
| DiskProperties.MergeIsWrite | pkg/blockcache/diskstore.go:356-377 | merging in the scratch buffer equals writing in place |
| DiskProperties.ResizeIndex | pkg/blockcache/diskstore.go:496-543 | after Resize exactly the bits below the boundary chunk survive, less the old last chunk, and the index is well formed |
| DiskProperties.IndexAlwaysOK | pkg/blockcache/diskstore.go:133-157 | after any calls with non-empty chunks every chunk bit is below numChunks(CurSize) and inside the hash array |
| DiskProperties.HashedRunsWhole | pkg/blockcache/diskstore.go:216-378 | in the hashed regime a chunk is wholly marked or not at all, after any run |
| DiskProperties.HashedRunHeals | pkg/blockcache/diskstore.go:319-378 | after any hashed run and a WriteChunk with the true hash, every ranged read misses, serves the caller's bytes, or the hash collided |
| DiskProperties.UnalignedChunkSizeBreaks | pkg/blockcache/diskstore.go:253-260 | for every chunk size not a multiple of the sub-block, filling chunk 0 marks unfetched bytes of chunk 1 |
| DiskRetention.WriteChunkKeeps | pkg/blockcache/diskstore.go:319-378 | a verified write to a cached chunk that agrees with the caller's keeps it: Get serves the caller's chunk and its hash is recorded |
| DiskRetention.WriteChunkLeaves | pkg/blockcache/diskstore.go:319-378 | and every read of any other chunk answers as before, hit or miss |
| DiskRetention.HashedRunKeeps | pkg/blockcache/diskstore.go:319-378 | the same after any run of the hashed regime, with every ranged read of the chunk its slice |
| DiskRetention.CallRetains | pkg/blockcache/diskstore.go:210-554 | one call of any kind: what it gives is held, and what was held and is not dropped, resized away or found to disagree is held on, unchanged |
| DiskRetention.TouchesExactly | pkg/blockcache/diskstore.go:384-431 | a partial write through is taken exactly when some byte of a sub-block it touches is cached |
| DiskRetention.StoredIsServed | pkg/blockcache/diskstore.go:210-554 | after any calls from nothing, in either regime or mixed, a range whose bytes were given and not forgotten since is served and hashed, each byte the one given last |
| DiskRetention.OperationIsCall | pkg/blockcache/diskstore.go:174-554 | the operations of a demand-filling caller are such calls |
| DiskRetention.ResizePresence | pkg/blockcache/diskstore.go:496-543 | exactly what a Resize leaves present: nothing from the boundary chunk to the end of the bitmap and nothing of the old last chunk |
| RecordedHashes.HashesStayTrue | pkg/blockcache/diskstore.go:210-543 | every call that carries true hashes keeps: a known hash of a present chunk is the hash of its leading bytes |
| RecordedHashes.KnownHashIsTrue | pkg/blockcache/diskstore.go:467-477 | so from nothing a known hash is the hash of what Get serves; in particular a partial WriteThrough cleared it |
| RecordedHashes.RangedFillLeavesHash | pkg/blockcache/diskstore.go:297-316 | the condition that a ranged fill repeats what is cached is needed: one that changes a hashed chunk leaves the old hash |
| SubBlockWrites.ReconciledIs | pkg/wire/blockproxy.go:771-783 | the loop over touched sub-blocks drops the chunk exactly when one of them does not match |
| SubBlockWrites.VerifiedKeeps | pkg/wire/blockproxy.go:743-783 | up to a collision, writing through and reconciling keeps coherence when every unsafe edge is checked |
| SubBlockWrites.RunKeeps | pkg/wire/blockproxy.go:743-783 | so does every run |
| SubBlockWrites.RunReadsTrue | pkg/wire/blockproxy.go:743-783 | from nothing cached every read after any such run is true, or a collision has happened |
| SubBlockWrites.VerifiedBreaks | pkg/wire/blockproxy.go:743-783 | with an unchecked edge there are a file consistent with the cache and at most two checked operations after which a read is wrong, without any collision |
| SubBlockWrites.VerifiedExact | pkg/wire/blockproxy.go:743-783 | edges checked if and only if, for every file consistent with the cache and up to collisions, reads after the write are true and stay so |
| SubBlockWrites.UncheckedEdgeReached | pkg/wire/blockproxy.go:743-783 | three well-posed operations from nothing cached end in a wrong read that no check notices |
| SubBlockWrites.SafeWriteIsNotDropped | pkg/wire/blockproxy.go:771-783 | a write with safe edges never fails a check, so the chunk stays |
| Reconciliation.StepKeeps | pkg/wire/blockproxy.go:743-836 | with writes that have no condition, every operation and every check keeps a file that the cache is coherent with and that differs from the caller's only under doubt, or compares two different sub-blocks that hash alike |
| Reconciliation.RunKeeps | pkg/wire/blockproxy.go:743-836 | so does every run of operations and checks in any order |
| Reconciliation.TrueCheckDropsNothing | pkg/wire/blockproxy.go:771-836 | a check of a sub-block that is not under doubt drops nothing |
| Reconciliation.ClearReadsTrue | pkg/blockcache/diskstore.go:174-293 | a ranged or whole-chunk hit that meets no sub-block under doubt is the caller's bytes |
| Reconciliation.RunReadsTrue | pkg/wire/blockproxy.go:743-836 | hence from nothing cached, after any run, or a collision has happened |
| Reconciliation.SpanSettles | pkg/wire/blockproxy.go:743-783 | a write over any number of chunks, checked after all its pieces, leaves the caller's file written once and brings nothing under doubt but its last sub-block, and not that one when the check covers the last piece's edges, up to collisions |
| Reconciliation.BatchSettles | pkg/wire/blockproxy.go:810-836 | a batch of checks at fsync, in any order, leaves no doubt but those it does not name and those the backing file does not reach, up to collisions |
| Reconciliation.NoDoubtReadsTrue | pkg/wire/blockproxy.go:805-836 | with no doubt left GetSub, Get and HashRange serve exactly the caller's bytes |
| MemStores.CloneChunk | pkg/blockcache/memstore.go:172-180 | a new buffer with room for a chunk, holding exactly the bytes |
| MemStores.GrowSlice | pkg/blockcache/memstore.go:126-144 | growing in place shows zeros in the gap although the spare capacity held stale bytes |
| MemStores.SpliceSlice | pkg/blockcache/memstore.go:282-300 | the in-place splice equals an overlay on a zeroed copy |
| MemStores.MergeSlice | pkg/blockcache/memstore.go:229-256 | the in-place merge equals resizing and merging out of place |
| MemStores.MemStore.Get | pkg/blockcache/memstore.go:74-93 | serves what the specification serves |
| MemStores.MemStore.IsRangePresent | pkg/blockcache/memstore.go:37-47 | the bitmap test is the specification's |
| MemStores.MemStore.GetSub | pkg/blockcache/memstore.go:97-116 | serves what the specification serves |
| MemStores.MemStore.HashRange | pkg/blockcache/memstore.go:314-332 | hashes what the specification serves |
| MemStores.MemStore.PutHashed | pkg/blockcache/memstore.go:183-195 | the new entry is the specification's whole-chunk fill |
| MemStores.MemStore.PutSub | pkg/blockcache/memstore.go:121-161 | the new entry is the specification's ranged fill, whatever stale bytes the buffer held |
| MemStores.MemStore.WriteThrough | pkg/blockcache/memstore.go:261-311 | the new entry is the specification's write |
| MemStores.MemStore.WriteChunk | pkg/blockcache/memstore.go:198-257 | the new entry is the specification's merge-and-verify |
| MemStores.MemStore.Drop | pkg/blockcache/memstore.go:349-358 | forgets exactly the chunk |
| MemStores.MemStore.Resize | pkg/blockcache/memstore.go:361-382 | deleting while ranging, forgets exactly the chunks from the boundary on and the old last one |
| MemStores.MemStore.Invalidate | pkg/blockcache/memstore.go:385-390 | nothing is left of the entry |
| MemCoherence.RangePresentIff | pkg/blockcache/memstore.go:37-47 | the per-chunk bitmap test holds exactly when every byte of the range is present |
| MemCoherence.GetSubTruth | pkg/blockcache/memstore.go:97-116 | in a coherent state a ranged hit is the caller's bytes |
| MemCoherence.GetTruth | pkg/blockcache/memstore.go:74-93 | in a coherent state a whole-chunk hit is the caller's bytes |
| MemCoherence.ResizeKeeps | pkg/blockcache/memstore.go:361-382 | Resize keeps coherence whatever size was recorded |
| MemCoherence.WriteThroughKeeps | pkg/blockcache/memstore.go:261-311 | WriteThrough keeps coherence when both edge sub-blocks are safe |
| MemCoherence.WriteThroughBreaks | pkg/blockcache/memstore.go:282-311 | with an unsafe edge there are a file consistent with the cache and at most one safe operation after which GetSub serves a byte that file does not have |
| MemCoherence.WriteThroughExact | pkg/blockcache/memstore.go:261-311 | edges safe if and only if, for every file consistent with the cache, every read after the write is true and stays so; a write up to the last byte but one is safe when the buffer ends there |
| MemCoherence.UnsafeEdgeReached | pkg/blockcache/memstore.go:282-311 | two well-posed operations from nothing cached end in a wrong read, for every file whose byte there is not 0 |
| MemCoherence.RunKeeps | pkg/blockcache/memstore.go:74-390 | every run of safe operations keeps coherence |
| MemCoherence.RunReadsTrue | pkg/blockcache/memstore.go:74-332 | from nothing cached, after any such run every hit is the caller's current bytes |
| MemCoherence.PutSubReadsBack | pkg/blockcache/memstore.go:97-161 | a ranged fill is read back by GetSub |
| MemCoherence.PutReadsBack | pkg/blockcache/memstore.go:74-195 | a whole-chunk fill is read back by Get |
| MemCoherence.HashedRunsWhole | pkg/blockcache/memstore.go:183-257 | after any calls of the hashed regime no chunk is partial |
| MemCoherence.HashedRunHeals | pkg/blockcache/memstore.go:198-257 | after any hashed run and a WriteChunk with the true hash, every read misses, serves the caller's bytes, or the hash collided |
| MemCoherence.WriteChunkHeals | pkg/blockcache/memstore.go:198-257 | however far the base diverged, WriteChunk with the true hash leaves a miss or the caller's bytes, or the hash collided |
| MemCoherence.StaleBitmapExact | pkg/blockcache/memstore.go:229-256 | a partial WriteChunk leaves a bitmap without its chunk if and only if the chunk was demand-filled and the merged bytes do not hash to the caller's |
| MemCoherence.StaleBitBreaks | pkg/blockcache/memstore.go:145-160 | every bit so left makes a read wrong after any fill that misses it and at most one more operation, for every file whose byte there is not 0 |
| MemCoherence.MixingRegimesBreaks | pkg/blockcache/memstore.go:244-256 | hence from any demand-filled chunk a mismatched WriteChunk and a fill of other sub-blocks end in a wrong read |
| MemRetention.WriteChunkKeeps | pkg/blockcache/memstore.go:198-257 | a verified write to a cached chunk that agrees keeps it, served whole and in every range with its hash recorded, and every other chunk reads as before |
| MemRetention.ResizeReads | pkg/blockcache/memstore.go:361-382 | after a Resize the chunks below the boundary chunk, but for the old last one, read as before with their hashes, and no other read hits |
| MemRetention.StoredIsServed | pkg/blockcache/memstore.go:121-390 | after any calls from nothing, in either regime or mixed, a range whose bytes were given and not forgotten since is served and hashed, each byte the one given last |
| MemRetention.HashesStayTrue | pkg/blockcache/memstore.go:121-382 | every call that carries true hashes keeps: a known hash is the hash of leading bytes of the cached chunk |
| CrashSafety.StepKeeps | pkg/blockcache/diskstore.go:221-239 | every step of a fill, every error and every crash, whichever earlier index it brings back, keeps: no index that may be on disk claims a byte that a possible image of the data file lacks |
| CrashSafety.ExecKeeps | pkg/blockcache/diskstore.go:221-239 | so does every sequence of fills, failures and crashes |
| CrashSafety.PresentReadsBack | pkg/blockcache/diskstore.go:684-711 | after any of them every range the index calls present reads back whole as the origin's bytes |
| CrashSafety.FilledStaysServed | pkg/blockcache/diskstore.go:221-239 | once a fill has renamed its index its bytes are served, through later fills that finish or fail and any crash that does not bring an earlier index back |
| CrashSafety.UninterruptedIsFill | pkg/blockcache/diskstore.go:221-316 | the steps of a fill, taken without interruption, are the store's whole-chunk or ranged fill |
| CacheReads.FillFull | pkg/blockcache/blockcache.go:336-352 | looping over short fetches returns a prefix of the origin, all of it from a complete origin |
| CacheReads.DiskGetsOrigin | pkg/blockcache/diskstore.go:174-206 | of a read-only file, a chunk the on-disk store returns is the origin's |
| CacheReads.DiskPutKeeps | pkg/blockcache/diskstore.go:210-239 | storing a fetched chunk keeps that so |
| CacheReads.MemServesChunks | pkg/blockcache/memstore.go:74-195 | the in-memory store keeps and returns the same |
| CacheReads.Cache.StoreGet | pkg/blockcache/blockcache.go:324-331 | a hit only at the chunk's full length, and then the origin's bytes; when the store call does not fail, a hit exactly when the store has the chunk |
| CacheReads.Cache.Chunk | pkg/blockcache/blockcache.go:297-321 | on success the origin's chunk; the on-disk store keeps chunks of the origin or nothing, whatever store calls fail; with no failing store calls a chunk the store has is not fetched, and one that is fetched is kept along with all others |
| CacheReads.Cache.ReadAt | pkg/blockcache/blockcache.go:245-292 | returns a prefix of the origin at the offset; from a complete origin min(len, size-off) bytes, and EOF exactly when the read passes the end; with no failing store calls the whole range is then cached, and reading a cached range fetches nothing |
| SharedFlights.OneFetchPerChunk | pkg/blockcache/blockcache.go:297-321 | at most one reader leads a flight for a chunk |
| SharedFlights.StepKeeps | pkg/blockcache/blockcache.go:245-352 | every step of every reader keeps the invariant of store, flights and readers |
| SharedFlights.ExecKeeps | pkg/blockcache/blockcache.go:245-352 | so does every interleaving |
| SharedFlights.Transparent | pkg/blockcache/blockcache.go:245-352 | in every interleaving each reader has a prefix of the origin, a finished one all of it with the right EOF, and no chunk is fetched twice at once |
| FlightProgress.NoReaderIsStuck | pkg/blockcache/blockcache.go:245-352 | in every interleaving a reader that is not done can step, or waits for a flight whose leader can |
| FlightProgress.StoredIsFound | pkg/blockcache/blockcache.go:297-331 | once a leader has stored a chunk, and until the store loses it, every reader that looks for it can take it from the store |
| FlightProgress.ReadReturnsTheRange | pkg/blockcache/blockcache.go:245-292 | a ReadAt that has returned, in a run in which no fetch failed, has exactly the origin's bytes of the range it was given, and EOF exactly when that passes the end |
| FlightProgress.ReportsAreTrue | pkg/blockcache/blockcache.go:245-292 | whatever fails, a ReadAt that has returned reports an error only with nothing, EOF only with everything up to the end, and otherwise has at least a byte |
| Prunes.KeptAndExpired | pkg/blockcache/prune.go:55-68 | the TTL pass splits the entries, losing none |
| Prunes.FilterInPlace | pkg/blockcache/prune.go:55-68 | filtering into the front of the array being ranged over gives what filtering a copy gives |
| Prunes.EvictOldest | pkg/blockcache/prune.go:70-86 | evicts a prefix of the sorted entries, the last eviction was necessary, and the rest fits |
| Prunes.Prune | pkg/blockcache/prune.go:33-89 | conservation of entries, nothing older than the cutoff survives, survivors fit the cap, evictions are the oldest and no more than needed, freed plus survivors is what was found |
| FileKeys.KeyExact | pkg/blockcache/blockcache.go:50-74 | for fields without NUL two identities hash the same bytes if and only if they name the same file under the identity policy |
| FileKeys.UniqueExact | pkg/blockcache/blockcache.go:50-74 | the bytes hashed for a file are hashed for no other if and only if its mount and path hold no NUL |
| FileKeys.SeparatorInFieldCollides | pkg/blockcache/blockcache.go:59-67 | every identity with a NUL in a field has a different one that hashes the same bytes |
| UdpFlows.StepKeeps | pkg/caretaker/hub.go:175-276 | every step of receiver, reply readers, collector and shutdown keeps the flow-table invariant |
| UdpFlows.ExecKeeps | pkg/caretaker/hub.go:175-276 | so does every interleaving |
| UdpFlows.ReachableFlows | pkg/caretaker/hub.go:175-276 | every stream is in the table, closed, or about to be closed by the thread that removed it; streams are not shared; replies went to the source that opened the stream |
| UdpFlows.FlowStays | pkg/caretaker/hub.go:175-276 | through any steps a flow stays in the table until its own teardown, a sweep that finds it idle, or shutdown |
| UdpFlows.EvictionIsJustified | pkg/caretaker/hub.go:175-276 | the same from the start of any run: tearing down an older flow, however late, never evicts a newer one of the same source |
| UdpFlows.CollectsExactlyIdle | pkg/caretaker/hub.go:191-209 | after any run a collection takes a flow if and only if neither a datagram nor a delivered reply of it, by the times in the steps, happened within the limit |
| UdpFlows.BusyFlowIsSpared | pkg/caretaker/hub.go:175-276 | after traffic in either direction at time t, no collection that looks back no further than t takes the flow, whatever else happens |
| UdpFlows.RefreshComesFirst | pkg/caretaker/hub.go:229-258 | a reader that has delivered a reply records the time before it reads or fails again |
| UdpFlows.DatagramGoesToItsFlow | pkg/caretaker/hub.go:220-268 | a datagram is written to the flow its source has, or else to a new one, unless none can be opened |
| UdpFlows.RepliesReachTheirSource | pkg/caretaker/hub.go:229-258 | the replies delivered are sent once each and in order, to the source their stream was opened for |
| UdpFlows.ShutdownClosesAll | pkg/caretaker/hub.go:179-188 | shutdown leaves the table empty and every stream closed or about to be |
| DynamicReach.SetKeeps | pkg/caretaker/dns.go:61-76 | publishing an active name keeps every record the address of an active name with that canonical form, and no record has an empty key |
| DynamicReach.RemoveKeeps | pkg/caretaker/dns.go:79-84 | withdrawing a name that goes inactive keeps it too, also when another active name shares the key |
| DynamicReach.Reach.Update | pkg/caretaker/hub_dynamic.go:74-108 | active is the desired names that were active or could be bound; listeners that stay are not rebound and those that go are closed; every record is the address of an active name; when the overlay stays exactly the active names |
| DynamicReach.Reach.DropVanished | pkg/caretaker/hub_dynamic.go:82-88 | deleting while ranging removes exactly the names no longer desired, their listeners and their records |
| DynamicReach.Reach.BindNew | pkg/caretaker/hub_dynamic.go:92-108 | adds exactly the desired names that bind, and keeps the listeners already there |
| DynamicReach.Reach.Stop | pkg/caretaker/hub_dynamic.go:53-58 | on exit every listener is closed and the overlay is empty, even after name collisions |
| DynamicReach.OverlayExact | pkg/caretaker/hub_dynamic.go:82-108 | the overlay stays exactly the active names if and only if no vanished name shares its canonical form with one that stays, unless a new one has it |
| DynamicReach.OverlayExactWhenDistinct | pkg/caretaker/hub_dynamic.go:82-108 | in particular when canonical forms are distinct |
| DynamicReach.CollidingNamesLoseRecord | pkg/caretaker/dns.go:79-84 | when "a" vanishes and "A" stays, "A" loses its record |
| AllowSets.AllowSet.Refresh | pkg/caretaker/proxy.go:233-266 | one round's new permitted set and per-name sets, or no change when it would permit nothing |
| AllowSets.RoundExact | pkg/caretaker/proxy.go:233-266 | a round takes effect if and only if there are no names, some name resolved to an address, or some name failed while it held one; then exactly those addresses are permitted, and otherwise nothing changes |
| AllowSets.ResolvedIsPermitted | pkg/caretaker/proxy.go:236-264 | an address returned in a round is permitted after it |
| AllowSets.StaleIsDenied | pkg/caretaker/proxy.go:236-264 | after a round that takes effect, an address that no lookup returned and no failing name had is denied |
| AllowSets.RoundOfName | pkg/caretaker/proxy.go:236-255 | a name takes its new addresses from a successful lookup of a round that takes effect and otherwise keeps what it had |
| AllowSets.NameHoldsLastGood | pkg/caretaker/proxy.go:233-266 | after any rounds a name holds exactly the addresses of its last successful lookup in a round that took effect |
| AllowSets.PermitsUnion | pkg/caretaker/proxy.go:233-266 | the permitted set is the union of what the names hold |
| AllowSets.PermittedExactly | pkg/caretaker/proxy.go:233-266 | an address is permitted if and only if some name's last such lookup returned it |
| AllowSets.NeverEmptied | pkg/caretaker/proxy.go:256-260 | once something is permitted, something always is |
| AllowSets.AllFailKeeps | pkg/caretaker/proxy.go:239-248 | a round in which every lookup fails leaves the permitted set alone |
| AllowSets.UnionLawExact | pkg/caretaker/proxy.go:233-266 | the permitted set is always the union if and only if no name is repeated |
| AllowSets.RepeatedNameLeaks | pkg/caretaker/proxy.go:236-255 | for every list with a repeated name one round permits an address that no name holds |
| MountRecords.StepKeeps | pkg/caretaker/caretaker.go:658-673 | every step of every mount thread, sync, crash and restart keeps the write-ahead invariant |
| MountRecords.ExecKeeps | pkg/caretaker/caretaker.go:658-673 | so does every run |
| MountRecords.MountsAreRecorded | pkg/caretaker/caretaker.go:599-684 | at every point, the begin of an existing mount is in every log a crash can leave if and only if its write did not fail, no crash lost it and a sync has succeeded since; and it has no end unless its unmount failed |
| MountRecords.RecordedByTheSteps | pkg/caretaker/caretaker.go:599-684 | over every run, by the steps alone: which mounts exist; that a begin whose write and sync did not fail was on disk before its mount and stays; that an unwritten begin is not in the log; when the end is there |
| MountRecords.SyncedBeforeMount | pkg/activity/activity.go:246-260 | when the write and the sync succeed, the begin is on disk before the mount syscall |
| MountRecords.FailedWriteHidesMount | pkg/activity/activity.go:301-332 | a failed write of the begin leaves a mount the log does not know |
| MountRecords.FailedUnmountLeavesMount | pkg/caretaker/caretaker.go:599-684 | a failed unmount leaves a mount the log says has ended |
| ActivityLog.ActivityIDInjective | pkg/activity/activity.go:246-260 | ids of different activities differ, whatever the instance names |
| ActivityLog.UnfinishedFrom | pkg/activity/activity.go:468-482 | the begins, in order, whose id no record ends |
| ActivityLog.UnfinishedMember | pkg/activity/activity.go:468-482 | a record is unfinished exactly when it is a begin and nothing ends its id |
| ActivityLog.UnfinishedInOrder | pkg/activity/activity.go:468-482 | the unfinished records are exactly the begins no record ends, each once, in the order of the log |
| ActivityLog.UnfinishedByTheSteps | pkg/activity/activity.go:246-290 | after any run a begin is unfinished if and only if no later step ended or resolved it |
| ActivityLog.EndsSayHow | pkg/activity/activity.go:263-290 | a step that ends an activity leaves, for good, one end of that id by the ending instance: ok, error or recovered |
| ActivityLog.CleanExit | pkg/activity/activity.go:499-517 | known exactly when the instance began a lifetime as server or caretaker, clean exactly when the first end of the first of them is not a recovery |
| ActivityLog.Recorder.Begin | pkg/activity/activity.go:246-260 | appends one begin under a new id |
| ActivityLog.Recorder.Resolve | pkg/activity/activity.go:281-290 | appends one end with the original id, the given status and the resolver's own instance |
| ActivityLog.Recorder.ResolveAll | pkg/activity/activity.go:281-290 | appends one recovered end for every record given, in order, and rewrites nothing |
| ActivityLog.Activity.End | pkg/activity/activity.go:263-273 | writes an end the first time only |
| ActivityLog.ResolvingConverges | pkg/activity/activity.go:281-290 | resolving everything unfinished leaves nothing unfinished |
| ActivityLog.StepKeeps | pkg/activity/activity.go:246-290 | every begin, end and resolution by any instance keeps ids unique and every end about the same thing as its begin, recovered exactly when another instance wrote it |
| ActivityLog.ExecKeeps | pkg/activity/activity.go:246-290 | so does every run over any incarnations |
| ActivityLog.CleanMeansOwnEnd | pkg/activity/activity.go:499-517 | after any run an instance is reported clean if and only if it closed its own lifetime first, so never by another's resolution |
| ActivityTail.RecordsConcat | pkg/activity/tail.go:133-196 | decoding whole lines and then the rest is decoding all of it |
| ActivityTail.OneRecord | pkg/activity/tail.go:173-196 | one line is one record, if it decodes |
| ActivityTail.CompleteLenSuffix | pkg/activity/tail.go:173-182 | the last newline of what was read from a line boundary is the last newline of the file |
| ActivityTail.Tailer.ReadNew | pkg/activity/tail.go:133-196 | returns the records completed since the stored offset, and moves it past them; restarts on another or a shorter file |
| ActivityTail.Tailer.Next | pkg/activity/tail.go:70-97 | one poll reads every scanned stream, with the retained generation on the first poll only, and returns the new records in stable timestamp order |
| StableSorts.StableSortSorts | pkg/activity/tail.go:95 | that order is sorted, and keeps the records of each instant as they were read: none lost, added or swapped |
| ActivityTail.NextIsPoll | pkg/activity/tail.go:70-97 | a Next over the directory leaves the memory a poll of the schedule leaves, and gathers exactly the events that poll adds to the log of each scanned file |
| ActivityTail.PollReads | pkg/activity/tail.go:106-130 | a poll reads each live file exactly from where it was left |
| ActivityTail.PollKeeps | pkg/activity/tail.go:70-130 | a poll keeps: emitted is the records of the prefix up to the offset |
| ActivityTail.ExecKeeps | pkg/activity/tail.go:70-196 | so does every schedule of creations, appends to live and rotated files, rotations and polls |
| ActivityTail.TailingIsExact | pkg/activity/tail.go:70-196 | after any schedule each file's emitted records are those of a prefix of whole lines, once each and in order; one more poll emits exactly the rest of a file's complete records if it is some stream's live file, or its retained one and nothing was polled before, and nothing of any other |
| ActivityTail.OnlyLateRecordsSkipped | pkg/activity/tail.go:99-130 | what is complete at a poll that scans a file stays emitted, and when no later poll scans it nothing more is: the records skipped are those finished after the last poll that scans their file, also by a writer that still holds a rotated file |
| ActivityTail.RewrittenFileRestarts | pkg/activity/tail.go:142-151 | a live file rewritten in place is read from its start if it is now shorter than what was read of it, and on from there otherwise |
| ActivityTail.Batch | pkg/activity/activity.go:425-448 | the split-and-decode loop returns the records of the whole lines, and of an unfinished last line if it decodes |
| ActivityTail.BatchAgrees | pkg/activity/activity.go:425-448 | so tailing and batch reading agree but for an unfinished last line |
| ClaimLookup.JoinSplit | pkg/authscope/authscope.go:214-223 | splitting a name and joining it again gives the name |
| ClaimLookup.SplitDotless | pkg/authscope/authscope.go:214-223 | a name is cut at every dot |
| ClaimLookup.SplitJoin | pkg/authscope/authscope.go:214-223 | and nowhere else: splitting the join of dotless parts gives the parts |
| ClaimLookup.LookupPath | pkg/authscope/authscope.go:234-252 | the loop with backtracking computes the search |
| ClaimLookup.FindComplete | pkg/authscope/authscope.go:234-252 | when the search fails no cutting of the name into keys resolves |
| ClaimLookup.FindBest | pkg/authscope/authscope.go:234-252 | a value found is that of the longest-first resolving cutting |
| ClaimLookup.LookupIsExact | pkg/authscope/authscope.go:214-252 | a value is found if and only if some cutting resolves, and it is the longest-first one's |
| ClaimLookup.FindOnName | pkg/authscope/authscope.go:214-252 | said of the name: a value is found if and only if some keys whose dotted join is the name lead through the nested objects, and it is where the longest-first of them lead |
| ClaimLookup.FindResolves | pkg/authscope/authscope.go:214-252 | the search returns v exactly when the name resolves to v |
| ClaimLookup.Lookup | pkg/authscope/authscope.go:214-223 | the literal-first lookup returns v exactly when the longest-first keys whose dotted join is the name lead to v, and nothing exactly when no keys do |
| ClaimLookup.LiteralWins | pkg/authscope/authscope.go:214-223 | a claim that literally has the name wins |
| ClaimLookup.Matches | pkg/authscope/authscope.go:196-204 | a rule accepts exactly when every tested claim resolves to a value that passes |
| ClaimLookup.MatchMap | pkg/authscope/authscope.go:184-194 | the first accepting rule, or none when none accepts |
| ClaimLookup.AppendIsFallback | pkg/authscope/authscope.go:392-403 | an appended map decides only what the first leaves undecided |
| ScreenLines.PartsAreRaw | pkg/agentdetect/manifest.go:329-341 | splitting and dropping a final empty part gives the lines |
| ScreenLines.SplitLines | pkg/agentdetect/manifest.go:329-341 | the lines without line feeds, each less one carriage return |
| ScreenLines.FromStart | pkg/agentdetect/manifest.go:400-422 | splitting the text from where line i starts gives the lines from i on |
| ScreenLines.LineStartOffset | pkg/agentdetect/manifest.go:400-412 | the summed and clamped offset, in bounds for any content |
| ScreenLines.OffsetExact | pkg/agentdetect/manifest.go:400-412 | the offset falls short of the line's start by the carriage returns stripped above it, so it is exact if and only if there were none |
| ScreenLines.JoinFrom | pkg/agentdetect/manifest.go:417-422 | the suffix from that offset, in bounds for any content |
| ScreenLines.FromResplits | pkg/agentdetect/manifest.go:417-422 | the suffix from line i splits into lines[i..] if and only if no carriage return was stripped above |
| ScreenLines.UpToResplits | pkg/agentdetect/manifest.go:453-472 | the prefix up to line i splits into lines[..i] if and only if no carriage return was stripped above, or what is cut off the last line does not show: its line feed, or that and its one carriage return |
| ScreenLines.CRShifts | pkg/agentdetect/manifest.go:400-422 | a stripped carriage return makes the suffix start a character early |
| ScreenLines.JoinResplits | pkg/agentdetect/manifest.go:526-552 | joined lines split again, except that a final empty line is lost |
| ScreenRegions.TrimSpaceIs | pkg/agentdetect/manifest.go:434-494 | TrimSpace takes all the white space off both ends and nothing else |
| ScreenRegions.BlankExactly | pkg/agentdetect/manifest.go:434-472 | a line is blank exactly when all its characters are white space |
| ScreenRegions.IsHorizontalRule | pkg/agentdetect/manifest.go:477-494 | true exactly when the trimmed line is one or two bars or begins with three |
| ScreenRegions.BottomLines | pkg/agentdetect/manifest.go:424-430 | all of the text when n reaches the total; otherwise it splits into exactly the last n lines if and only if no carriage return was stripped above them |
| ScreenRegions.BottomNonEmptyLines | pkg/agentdetect/manifest.go:434-451 | starts at a non-blank line; with no carriage return stripped above it, holds exactly the last min(n, total) non-blank lines, or all of them for n = 0 |
| ScreenRegions.TopNonEmptyLines | pkg/agentdetect/manifest.go:453-472 | ends with a non-blank line; when what the offset cuts off that line does not show, holds exactly the first min(n, total) non-blank lines, or all of them for n = 0 |
| ScreenRegions.AfterLastHorizontalRule | pkg/agentdetect/manifest.go:496-505 | the text below the last rule, or all of it; it splits into the lines below if and only if no carriage return was stripped above |
| ScreenRegions.AfterLastPromptMarker | pkg/agentdetect/manifest.go:512-520 | the text below the last marker line, or all of it; with no carriage return stripped above it holds no marker line |
| ScreenRegions.PromptBoxBody | pkg/agentdetect/manifest.go:526-552 | the lines between the last two rules, empty with fewer; for any content no line of it is a rule |
| ScreenRegions.MatchesFolded | pkg/agentdetect/manifest.go:272-316 | the early-exit evaluation computes the gate's meaning, in which an absent `any` does not constrain |
| ScreenRegions.Classify | pkg/agentdetect/manifest.go:245-262 | the earliest firing rule of the highest priority, none exactly when no rule fires |

## Left out

- DiskCoherence.RunKeeps: a partial `WriteThrough` in the run must have safe edges; by `WriteThroughExact` no weaker condition on the cached state keeps reads true for every file.
- MemCoherence.RunKeeps: likewise.
- SubBlockWrites.RunKeeps: each write stays inside one chunk; writes over several chunks and the batched checks at fsync are in `Reconciliation`.
- SubBlockWrites.RunReadsTrue: likewise.
- RecordedHashes.HashesStayTrue: a `WriteChunk` that fails is excluded, since it may leave the backing file longer than recorded.
- Reconciliation.RunReadsTrue: the in-memory store in this mode is not modelled; its HashRange also refuses a unit that passes the end of the buffer.
- Reconciliation.BatchSettles: the units checked are sub-blocks; the whole-block units of a session without sub-block hashing are not modelled.
- Reconciliation.SpanSettles: the exact condition is proved for a write inside one chunk only, in `SubBlockWrites.VerifiedExact`.
- DiskStores.DiskStore.LoadOrFresh: failing truncates and removes are not modelled in the class; `CrashSafety` covers a fill that stops at any step.
- DiskStores.DiskStore.PutHashed: failing writes, syncs and renames, likewise.
- DiskStores.DiskStore.Put: likewise.
- DiskStores.DiskStore.PutSub: likewise.
- DiskStores.DiskStore.WriteThrough: failing writes are not modelled; the caller ignores them.
- DiskStores.DiskStore.WriteChunk: a short read is the only failure modelled.
- DiskStores.DiskStore.Drop: a failing index write is not modelled.
- DiskStores.DiskStore.Resize: failing truncates and index writes are not modelled.
- DiskStores.DiskStore.GetSub: negative offsets and lengths are outside the argument types, except for HashRange, which refuses them.
- The store classes hold one cache entry. The map from key to entry and the locks around it, `Rename`, `Hint` and `SetHint` are not modelled.
- Crashes inside `Invalidate` and `Rename`, and a `Prune` concurrent with the stores.
- Bitmaps and the backing file of `DiskStore` are sequences that the methods reassign; aliasing of those slices is not modelled. Chunk buffers of `MemStore`, scratch buffers and the entries of `Prune` are arrays.
- The sequence numbers that order writes and fills in the block proxy.
- Overflow of 64-bit offsets and sizes.
- xxh3 and SHA-256 are arbitrary functions.
- CrashSafety.StepKeeps: a rename is atomic.
- Prunes.Prune: the directory walk that collects the entries, and error reporting. The sort is a specification function with the contract of `sort.Slice`.
- SharedFlights.Transparent: the singleflight package is modelled by its contract, and cancellation of a waiting reader is not.
- UdpFlows.ReachableFlows: payloads and datagram order are not modelled.
- DynamicReach.Reach.Update: canonicalization is an arbitrary function of the name; the DNS server's static table, search-domain expansion and forwarding are not modelled, and would only add one-branch facts.
- ActivityTail.Tailer.Next: file identities are never reused, and errors of reading the directory or a file are not modelled.
- ActivityLog.ExecKeeps: log rotation that drops old records before recovery reads them; resolutions carry the recovered status, as every caller passes.
- ClaimLookup.Matches: the matcher of a claim is an arbitrary predicate; building it from configuration, and the expansion of templates, are not modelled.
- ScreenRegions.Classify: each rule is given the text of its region; parsing the region's name, and translating and matching regular expressions, are not modelled.
- ScreenLines.LineStartOffset: characters stand for bytes, so the model does not show that with enough stripped carriage returns an offset can fall inside a multi-byte character.
- JSON, TOML and YAML decoding, metrics, tracing and logging.
- The null store, the hash helpers, the command line, HTTP and TLS plumbing, API validators and configuration merging, which would only add easy members.
