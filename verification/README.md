# Verified models of gosqlite.org's stateful cores

A Dafny model of the parts of this SQLite package that keep delicate state, with proofs of what
they promise over every input, every call and every run.

**The blob store** (`blobstore/`). Objects are sparse maps from (object, sequence) to
reference-counted blocks in four SQL tables; clone, version snapshot, prune, truncate, dedup and
mode conversion all rewire the same rows. `Store.dfy` keeps the four tables as map fields of one
class and models each transaction as one method, in the order of its SQL statements. A new row id is
known only to be unused. `History.dfy` states the simple thing the store must agree with - a map from
id to bytes, a retention policy per object, and immutable numbered versions - and `History.Run`
proves that every history of calls, whatever the chunk size, default mode, levels, compressor and
dedup flag, is a run of it, for as long as no call names the id of a hidden snapshot.
`Sessions.RunSessions` carries this over a list of sessions on one database, each with its own dedup
flag, default mode and chunk size. `Laws.dfy` then proves, of every such run, isolation, transparency
of storage choices, immutability and numbering of versions, what a sweep keeps, and what each byte of
an object is after a batch. The invariant kept by every method
(`Store.Inv`) says: every block's count is the number of rows mapping it and at least 1, no row
dangles, every hash is the hash of the current bytes and unique, every stored chunk decodes to
exactly one chunk of plaintext, raw objects hold verbatim chunks, chunks of compressed objects are
what compression at a real level makes of their plaintext, all bytes past the logical size are zero,
and every version row names a present, distinct, hidden snapshot. `StatLaws.dfy` says what Stat
reports after the other calls.

**State machines around SQLite.** The five-level advisory file lock (`FileLock.dfy`), the WAL lock
table (`WalLocks.dfy`), the refcounted shared-memory groups (`ShmGroups.dfy`), the bounded LRU page
cache (`PageCache.dfy`, `PageCacheLaws.dfy`, `LruCache.dfy`) and all caches of a process on one set of
counters (`CacheProcess.dfy`), the ownership of prepared-statement handles and their SQL texts
and the order of their cache (`Statements.dfy`, `StatementLaws.dfy`), the bitset id generator and the
callback registries (`Ids.dfy`, `Callbacks.dfy`). Objects that the source mutates are classes; each
method is tied to a step function, and the step functions are proved safe over all runs.

**Sliding moments** (`Moments.dfy`). Terriberry's online update and its inverse, over exact reals,
against sums of powers of deviations of the window.

`dafny verify dfyconfig.toml` checks everything.

## What does not hold

Six promises fail in the code as it is; the model keeps the code and states exactly when each holds.

- A shrinking `Truncate` computes `size + chunk - 1` in int64. If that overflows, every chunk is
  dropped and the object reads as zeros (`Objects.TruncateKeepsPrefixIff`, `Laws.ShrinkLosesBytes`).
- `VersionInfo` documents ever-increasing version numbers. Numbers are `max + 1` over the surviving
  rows, so after a prune by age they may start again; a new number exceeds every number issued before
  iff the highest of those still exists (`Laws.VersionNumbers`, `Laws.NumbersRestart`).
- With dedup on in one session, off in a later one and on again after that, a raw in-place write
  leaves a stale hash behind and the last session stores wrong bytes. A flag history is safe for all
  calls iff it lacks that pattern (`Sessions.RunSessions`, `Sessions.StaleHashCorrupts`), and a single
  write iff it meets the condition of `DedupFlag.InPlaceKeepsHashesIff`.
- The advisory lock relies on its caller: a RESERVED or higher request from NONE breaks the count
  (`FileLock.SafeIffLegal`).
- So does the WAL lock table: it stays exact iff a file gives back only what it or nobody holds and
  detaches holding nothing (`WalLocks.ExactIffHarmless`, `WalLocks.StrangerUnlockBreaks`).
- The comment on `stmtCacheEntry` says the SQL text must outlive the handle. A live handle's text is
  alive iff the handle is a statement's or the cache's, or its result set belongs to a statement that
  is still open (`Statements.Session`); a one-shot query always leaves its result set on a handle
  whose text is freed (`Statements.Conn.QueryOnce`).

## Model

| member | source | states |
|---|---|---|
| `History.Run` | blobstore/blobstore.go:245-781 | every history of Create, WriteAt, Batch, Truncate, Clone, SetCompression, SetRetention, Delete, NewVersion, Prune, ReadAt, version read and List on a fresh store is answered exactly as a map from id to bytes with policies and immutable versions answers it, up to the first call that names a hidden snapshot id |
| `Sessions.RunSessions` | blobstore/options.go:23-67 | the same over any list of sessions on one database, each with its own dedup flag, default mode and chunk size, as long as dedup is not turned on again after on and off |
| `Sessions.StaleHashCorrupts` | blobstore/blobstore.go:894-905 | the converse: for every flag history with on, later off and later on, any environment, chunk size and two different chunks, there are sessions with those flags whose last call, a read, answers the second chunk where the specification allows only the first, all earlier answers being right |
| `History.RunOn` | blobstore/io.go:489-511 | the same from any state satisfying the invariant, with the trace of abstract states, and the invariant after every transaction |
| `History.Apply` | blobstore/versioning.go:47-257 | any single call that does not name a hidden snapshot keeps the store invariant and is one step of the specification |
| `History.NewVersionRefines` | blobstore/versioning.go:47-81 | cloning, numbering, recording and pruning together amount to recording the current bytes as a version and keeping what the policy keeps |
| `Laws.StorageIsTransparent` | blobstore/dedup.go:18-55 | two histories of the same calls that draw the same ids give the same answers, whatever dedup, levels, modes and compressor each used |
| `Laws.StepIsolates` | blobstore/blobstore.go:831-914 | a call leaves every other object as it was, and alters no version; versions vanish only by a delete, prune or new version of their own object |
| `Laws.VersionsNeverChange` | blobstore/versioning.go:47-81 | over any run a version stays byte for byte what was taken as long as it exists |
| `Laws.VersionNumbers` | blobstore/versioning.go:61-74 | a new number exceeds every surviving one; it exceeds every number issued in the object's present life iff the highest of them survives; and without an age-bounded sweep numbers run 1, 2, 3, ... |
| `Laws.HighestIs` | blobstore/versioning.go:61-74 | no number issued since the object's last delete exceeds the highest the law above speaks of |
| `Laws.NumbersRestart` | blobstore/versioning.go:170-223 | a concrete history in which the same number is issued twice |
| `Laws.ReadAfterWrite` | blobstore/io.go:122-135 | a read of the written range returns the written bytes, their count, and EOF iff the range reaches the end |
| `Laws.ReadsJoin` | blobstore/io.go:306-375 | reading on where a read without EOF ended gives the same bytes, count and EOF as one longer read |
| `Laws.BatchByte` | blobstore/io.go:180-225 | after a batch each byte is that of the last well-formed write over it, else what it was, else zero, and the object ends at its old end or the furthest end of a write |
| `Laws.BatchIsAtomic` | blobstore/io.go:180-196 | a batch succeeds iff the object exists, the callback does not give up and every ill-formed write is ignored; otherwise nothing changes |
| `Laws.PruneExact` | blobstore/versioning.go:170-223 | a version survives a sweep iff fewer than keep versions of the object are newer and its age is at most maxAge, a bound at or below zero being none |
| `Laws.PruneCounts` | blobstore/versioning.go:170-223 | a sweep by count alone leaves exactly keep versions, or all if there are fewer |
| `Laws.VersionReadsAsTaken` | blobstore/versioning.go:47-126 | over any run, while a version is listed, reading it gives the bytes the object had when it was taken |
| `Laws.ShrinkThenGrowReadsZeros` | blobstore/blobstore.go:739-758 | shrinking and growing again reads zeros between the two sizes |
| `Laws.ShrinkLosesBytes` | blobstore/blobstore.go:739-745 | a concrete history in which a shrink near the largest int64 wipes the byte at offset 0 |
| `Objects.FirstDeadIs` | blobstore/blobstore.go:739-745 | the wrapped rounding-up is ceil(size/chunk) without overflow and at or below zero with it |
| `Objects.TruncateKeepsPrefixIff` | blobstore/blobstore.go:726-758 | Truncate is a cut or zero-extension iff it grows, the rounding-up fits int64, or only zeros were kept |
| `Objects.ShrinkMeaning` | blobstore/blobstore.go:739-758 | dropping dead chunks and zeroing the boundary tail leaves the cut content and nothing but zeros past the end |
| `Objects.SplicedContent` | blobstore/io.go:141-154 | bytes overlaid at an offset, with the size raised to the end, read as the zero-extending splice, and the tail stays zero |
| `Objects.ConvertedKeepsMeaning` | blobstore/blobstore.go:356-382 | once every chunk is rewritten into the other mode with the same plaintext, flipping the mode column changes no object's content |
| `Objects.ClonedMeaning` | blobstore/clone.go:43-80 | copied mappings give the copy the source's content and leave every other object's |
| `BlobStore.Store.PutBlock` | blobstore/blobstore.go:831-866 | replacing one chunk changes what that chunk stores and no other and keeps every count exact, whatever the hash column holds; with dedup off or a current index it stores the bytes asked for and keeps every hash current |
| `BlobStore.Store.PutBlockDedup` | blobstore/dedup.go:18-55 | the chunk stores what a carrier of the hash holds, or the bytes asked for if there is none; counts stay exact, and a carrier held by another object stays the only one; with a current index the bytes are those asked for and every hash stays current |
| `BlobStore.Store.BlockByHash` | blobstore/dedup.go:69-80 | a block with that hash if there is one, otherwise none has it |
| `BlobStore.Store.ReleaseBlock` | blobstore/dedup.go:97-105 | one reference fewer, and the block is gone exactly when it was the last |
| `BlobStore.Store.PrivateRawBlock` | blobstore/blobstore.go:873-914 | a block mapped only by this chunk, with no chunk reading differently (a hole becomes zeros), and without a hash - unless dedup is off after a session that had it on, when a private block keeps its hash |
| `BlobStore.Store.ReleaseChunks` | blobstore/blobstore.go:925-942 | exactly the named rows go; a block goes iff all its references did; all other chunks store what they did |
| `BlobStore.Store.CloneChunks` | blobstore/clone.go:67-78 | the copied rows are counted by multiplicity, no block is added or lost |
| `BlobStore.Store.WriteChunkRaw` | blobstore/io.go:401-407 | the chunk's plaintext gets the bytes overlaid, other chunks are untouched, and a private block is changed in place |
| `BlobStore.Store.WriteChunkCompressed` | blobstore/io.go:412-425 | the same for a compressed chunk, full-chunk shortcut included; what is stored is the frame if shorter than the chunk, else the chunk itself, at the level of the object if real, else of the store, else 3 |
| `BlobStore.Store.WriteSpans` | blobstore/io.go:108-118 | the whole byte range is overlaid on the object, nothing else changes, exactly the chunks it meets come to exist, and in compressed mode each of them is stored as the shorter of frame and plaintext |
| `Spans.SpanNumbers` | blobstore/io.go:381-395 | the spans visit exactly the chunks from off/chunk to (off+n-1)/chunk |
| `BlobStore.Store.WriteOnConn` | blobstore/io.go:141-154 | not found, or the object's content becomes the zero-extending splice |
| `BlobStore.WriteArgsExact` | blobstore/io.go:69-81 | the wrapped comparison refuses exactly the writes that end past the largest int64 |
| `BlobStore.Store.WriteAt` | blobstore/io.go:122-135 | the exact error in each case, the count, and the spliced content; a refused write changes nothing; every chunk a write meets in compressed mode is stored as the shorter of its frame and itself |
| `BlobStore.Store.BatchWrites` | blobstore/io.go:213-225 | the well-formed writes in order, ignored refusals skipped, up to the first refusal the callback does not ignore, with the high-water end |
| `BlobStore.Store.Batch` | blobstore/io.go:180-196 | all splices with one size update, or no table changes at all; succeeds iff the store is writable, the object exists, the callback does not give up and no ill-formed write is left unignored; fails with the first such refusal, else with the callback's own error |
| `BlobStore.CallbackErrorIs` | blobstore/io.go:180-225 | the callback's error in terms of offsets and lengths: the first write it does not ignore that starts below zero or ends past the largest int64, else its own error, else none |
| `BlobStore.Store.ReadSpans` | blobstore/io.go:334-375 | the buffer is filled with exactly the requested slice and not beyond |
| `BlobStore.Store.ReadAt` | blobstore/io.go:306-375 | the clamped slice, its length, EOF iff it reaches the size, the errors, and the rest of the buffer untouched |
| `Spans.ChunkSpans` | blobstore/io.go:381-395 | the spans partition the range: each in one chunk, each starting where the previous stops, reaching the end |
| `Spans.ExactlyOneSpan` | blobstore/io.go:381-395 | every byte of the range lies in exactly one span, at its own chunk and offset |
| `BlobStore.Store.ZeroChunkTail` | blobstore/blobstore.go:762-781 | the tail of the chunk reads as zeros, a hole stays a hole |
| `BlobStore.Store.Truncate` | blobstore/blobstore.go:705-758 | errors, the new size, and the content Truncate leaves, overflow included |
| `BlobStore.Store.ConvertChunks` | blobstore/blobstore.go:356-382 | every existing chunk of the object is rewritten in order, holes stay holes, other objects are untouched; with dedup off or a current hash column each decodes as before and fits the target mode |
| `BlobStore.Store.SetCompression` | blobstore/blobstore.go:301-347 | with dedup off or a current hash column no content, hole or size changes; an object turned compressed stores each chunk as the shorter of its frame at the new level and itself; a level-only change touches no block; under dedup every converted chunk carries a hash; and whatever the column holds, a chunk turned raw takes the content of the sole carrier of its hash that another object holds |
| `BlobStore.Store.Create` | blobstore/blobstore.go:255-283 | an unused id, empty content, mode and level from the override or the store |
| `BlobStore.Store.CloneObjectTx` | blobstore/clone.go:43-80 | a new object with the source's content and columns, no block copied |
| `BlobStore.Store.DeleteObjectTx` | blobstore/blobstore.go:678-691 | the object and exactly its rows go; blocks it alone mapped are freed |
| `BlobStore.Store.DoomedVersions` | blobstore/versioning.go:192-212 | one newest-first pass with a rank counter finds exactly the versions outside the newest keep or before the int64 cutoff |
| `Versions.CutoffIs` | blobstore/versioning.go:191-191 | the cutoff does not wrap for clock readings from 1970 on |
| `Versions.RankIsPosition` | blobstore/versioning.go:192-212 | a version's position in the list is the number of newer versions |
| `BlobStore.Store.NextVersionNo` | blobstore/versioning.go:61-74 | one more than the highest surviving number, or 1 |
| `BlobStore.Store.PruneTx` | blobstore/versioning.go:170-223 | exactly the doomed versions and their snapshots go |
| `BlobStore.Store.NewVersion` | blobstore/versioning.go:47-81 | the current bytes are recorded under the next number, then the policy is applied; the version rows stay sound iff the id is not a hidden snapshot or the new row is swept at once |
| `BlobStore.Store.SetRetention` | blobstore/versioning.go:132-149 | only the policy columns change |
| `BlobStore.Store.ReadVersion` | blobstore/versioning.go:115-126 | not found, or the snapshot's bytes |
| `BlobStore.Store.Delete` | blobstore/blobstore.go:658-672 | the object, its versions and their snapshots go, nothing else; the version rows stay sound iff the id is not a hidden snapshot; with no versions the blocks table shrinks by exactly the bytes only this object mapped |
| `BlobStore.Store.DeleteVersionsTx` | blobstore/versioning.go:229-257 | no version row and no snapshot of the object is left |
| `BlobStore.Store.Stat` | blobstore/blobstore.go:426-455 | stored, unique and shared bytes count each distinct block once, split by whether another object maps it; the ratio times the size is the stored bytes |
| `StatLaws.StatAfterClone` | blobstore/clone.go:43-80 | after a clone source and copy both report the stored bytes of before, all shared and none unique, and the store holds no byte more |
| `StatLaws.StatAlone` | blobstore/blobstore.go:426-455 | the only object of a store reports every stored byte, all of them unique |
| `StatLaws.DeleteFreesUnique` | blobstore/blobstore.go:658-691 | deleting an object without versions frees exactly the bytes Stat called unique |
| `StatLaws.StatAfterCreate` | blobstore/blobstore.go:255-283 | a new object is empty, has the store's chunk size, is compressed iff the level asked for, its own or else the store's, is 1 to 5, and keeps only a real level of its own |
| `StatLaws.StatAfterSetCompression` | blobstore/blobstore.go:301-347 | afterwards the object is compressed iff the level is 1 to 5, keeps that level, and has the size and chunk size of before |
| `StatLaws.FirstChunk` | blobstore/codec.go:107-118 | one full chunk written to a new compressed object makes Stat report the shorter of the chunk and its frame at that level, with dedup on or off |
| `Accounting.BlocksOfIs` | blobstore/blobstore.go:432-448 | the two sets Stat sums over: the blocks some row of the object maps, and those of them that only its rows map |
| `Accounting.CloneSharesAll` | blobstore/clone.go:67-78 | after a clone both objects map the source's blocks, neither owns one alone, and no block changes its bytes |
| `Accounting.DeleteFreesOwn` | blobstore/blobstore.go:925-942 | deleting frees exactly the bytes Stat calls unique and keeps every shared block with its data |
| `Accounting.OwnIffCountEqual` | blobstore/blobstore.go:432-448 | a block's count equals the object's own multiplicity iff no one else maps it |
| `BlobStore.Store.List` | blobstore/blobstore.go:465-495 | the live ids ascending, hidden snapshots never |
| `Blocks.RepointKeepsInv` | blobstore/blobstore.go:989-1004 | pointing a chunk at another block, releasing the old one, keeps counts exact and hashes current and unique |
| `Blocks.ReleaseKeepsInv` | blobstore/blobstore.go:925-942 | a bulk release keeps counts exact and frees exactly the blocks with no reference left |
| `Blocks.CloneKeepsInv` | blobstore/clone.go:67-78 | a bulk copy raises each count by the multiplicity copied |
| `Blocks.ReleaseStatements` | blobstore/blobstore.go:925-942 | the two SQL statements, subtract the grouped counts and delete what reached zero, compute that release |
| `Codec.IdentityIsSound` | blobstore/codec.go:107-147 | libraries with the assumed properties exist |
| `DedupFlag.InPlaceKeepsHashesIff` | blobstore/blobstore.go:894-905 | an in-place write keeps the hash index current iff dedup is on, the block has no hash, or no byte changes |
| `DedupFlag.StaleHashNamesOtherBytes` | blobstore/dedup.go:60-80 | after one that does not, the block alone carries the hash of its former bytes while holding others |
| `Codec.CompressRoundTrip` | blobstore/codec.go:87-147 | Decompress inverts Compress iff the bound admits the plaintext, at every level and through the verbatim fallback; at a real level the stored form is the frame if that is shorter, and otherwise the plaintext |
| `Codec.WriteLevelIsReal` | blobstore/codec.go:41-75 | the level used is the object's, else the store's, else 3 |
| `Codec.EncodePacks` | blobstore/codec.go:107-118 | a chunk encoded for an object and a store is its frame at that level, tagged so, iff the frame is shorter, else itself |
| `Moments.EnqueueExact` | ext/stats/moments.go:47-58 | enqueue turns the exact moments of a window into those of the longer window |
| `Moments.DequeueUndoesEnqueue` | ext/stats/moments.go:60-75 | dequeue undoes enqueue on any field values, and emptying the window resets every field |
| `Moments.DequeueExact` | ext/stats/moments.go:60-75 | dequeue of any element of the window, not only the oldest, gives the exact moments of the rest |
| `Moments.LastInstead` | ext/stats/moments.go:47-75 | the moments do not depend on the order of the window |
| `Moments.Accumulator.Add` | ext/stats/moments.go:47-58 | the in-place updates, in the source's order, compute enqueue |
| `Moments.Accumulator.Remove` | ext/stats/moments.go:60-75 | the in-place updates compute dequeue |
| `Moments.Slide` | ext/stats/moments.go:47-75 | after any interleaving of enqueues and dequeues of present elements the fields are the mean and the sums of 2nd, 3rd and 4th powers of deviations of the window |
| `FileLock.AdvisoryLock.Lock` | vfs/advisorylock.go:39-74 | the step on counter, writer and caller's level; legal requests keep the safety invariant |
| `FileLock.AdvisoryLock.Unlock` | vfs/advisorylock.go:77-91 | the release step, which always keeps it |
| `FileLock.AdvisoryLock.CheckReservedLock` | vfs/advisorylock.go:94-98 | true iff some handle holds RESERVED or higher |
| `FileLock.RunsAreSafe` | vfs/advisorylock.go:39-91 | for any number of handles and any legal run: nShared counts the SHARED holders, at most one handle is at RESERVED or above and it is the recorded writer, EXCLUSIVE has no other holder |
| `FileLock.SafeIffLegal` | vfs/advisorylock.go:39-74 | a request keeps safety iff it is legal or a writer is already recorded |
| `FileLock.PendingOthersShrink` | vfs/advisorylock.go:45-73 | while a handle stays at PENDING the other holders only become fewer |
| `FileLock.PendingRetry` | vfs/advisorylock.go:56-71 | its EXCLUSIVE retry succeeds iff no other holder is left |
| `FileLock.RefusalIsInert` | vfs/advisorylock.go:45-73 | a refused request changes nothing except the move to PENDING |
| `FileLock.LockMeans` | vfs/advisorylock.go:39-74 | a request above the present level is granted iff every other handle is below PENDING (for SHARED), below RESERVED (for RESERVED) or below SHARED (above that), and raises the handle to that level; a refused one leaves it, or at PENDING behind readers; no other handle changes |
| `FileLock.UnlockMeans` | vfs/advisorylock.go:77-91 | a release leaves the handle at the lower of its level and the one asked for, the writer only if still above SHARED, and the count exact |
| `WalLocks.LockTable.Lock` | vfs/shm.go:159-214 | the two arrays change as one request over all its slots, or not at all |
| `WalLocks.WrapHarmless` | vfs/shm.go:168-171 | 32-bit wrap-around of offset + n never changes which ranges are refused |
| `WalLocks.GrantedIff` | vfs/shm.go:159-214 | granted on every slot iff no slot conflicts; a refused request changes nothing |
| `WalLocks.AcceptedRanges` | vfs/shm.go:168-171 | a range is accepted iff it starts at 0 or above, has at least one slot and ends at slot 7 or before |
| `WalLocks.UnlockUndoesLock` | vfs/shm.go:159-214 | giving back what a granted request took restores table and holders exactly |
| `WalLocks.ExactIffHarmless` | vfs/shm.go:74-214 | a request or a detaching keeps counts and bits equal to the true holders iff it gives back only what its file or nobody holds, or leaves holding nothing |
| `WalLocks.RunsAreExact` | vfs/shm.go:159-214 | in every run of harmless requests and detachings counts are the true SHARED holders and EXCLUSIVE excludes every other |
| `WalLocks.StrangerUnlockBreaks` | vfs/shm.go:179-190 | after a stranger's unlock two files hold one slot EXCLUSIVE, and the table is exact neither before nor after the second grant |
| `ShmGroups.Dispatcher.AttachShm` | vfs/shm.go:49-69 | idempotent attach to the group of the key, created if needed |
| `ShmGroups.Dispatcher.MapRegion` | vfs/shm.go:121-153 | the region's address; which regions exist afterwards; not-yet and out-of-memory exactly when due; earlier addresses unchanged |
| `ShmGroups.Dispatcher.DetachShm` | vfs/shm.go:74-92 | one file fewer; the last one removes the key and names the group to free |
| `ShmGroups.Dispatcher.FreeRegions` | vfs/shm.go:92-100 | frees each live region of the dying group once |
| `ShmGroups.RunsKeepInv` | vfs/shm.go:49-100 | refs is the number of attached files, a group is registered iff refs > 0, and each region is live memory of one group |
| `ShmGroups.FreeIsSafe` | vfs/shm.go:92-100 | freeing touches live memory only, with no file attached |
| `ShmGroups.FreedOnce` | vfs/shm.go:74-100 | no group is freed twice in any run |
| `ShmGroups.NoLeak` | vfs/shm.go:74-100 | in every run each live allocation is a region of a group that has files or is about to be freed; once every file has left and every group was freed no memory is left |
| `ShmGroups.AddressesAreStable` | vfs/shm.go:121-153 | a file's regions keep their addresses while it is attached, also across death and re-creation under the same key |
| `ShmGroups.SameKeySameRegions` | vfs/shm.go:49-69 | in every run two attached files with the same key are in the same group, hence see the same addresses |
| `LruCaches.LruCache.Fetch` | pcache/pcache.go:209-247 | hit, miss, refusal, eviction and allocation as specified; hits, misses, evictions and the gauge move exactly as due |
| `LruCaches.LruCache.Unpin` | pcache/pcache.go:249-271 | discard, or append and evict while over the bound; evictions count the pages evicted |
| `LruCaches.LruCache.Rekey` | pcache/pcache.go:273-291 | the page moves and a page in the way is freed, as RekeyMoves says; only the gauge moves |
| `LruCaches.LruCache.Truncate` | pcache/pcache.go:293-305 | exactly the keys at or above the limit go, the list keeps its order; only the gauge moves |
| `LruCaches.LruCache.Shrink` | pcache/pcache.go:326-335 | exactly the unpinned pages go, each counted as an eviction |
| `LruCaches.LruCache.Destroy` | pcache/pcache.go:307-324 | every page leaves the gauge |
| `PageCacheLaws.RunsKeepInv` | pcache/pcache.go:135-335 | in every legal run the indexes agree, the list holds unpinned pages once each, and the bound is exceeded only with every page pinned |
| `PageCacheLaws.PinnedSurvive` | pcache/pcache.go:209-335 | a pinned page keeps block and key through any call not aimed at it |
| `PageCacheLaws.FetchEvictsFront` | pcache/pcache.go:209-247 | at the bound exactly the front page is evicted, otherwise none |
| `PageCacheLaws.FetchYields` | pcache/pcache.go:209-247 | which block a fetch yields for each create flag, at and below the bound; its key then leads to it, and every other key keeps its page except that of the evicted one |
| `PageCacheLaws.UnpinLeaves` | pcache/pcache.go:249-271 | a discarded page alone goes; otherwise the page joins the end of the list and exactly the excess leaves from the front, every other key keeping its page |
| `PageCacheLaws.RekeyMoves` | pcache/pcache.go:273-291 | the new key leads to the page, the old one nowhere, every other key to what it did, and only the page formerly under the new key is gone |
| `PageCacheLaws.TruncateAndShrinkKeep` | pcache/pcache.go:293-335 | a truncation keeps exactly the keys below the limit, a shrink exactly the pinned pages |
| `PageCacheLaws.ListIsUnpinOrder` | pcache/pcache.go:249-271 | in every run the list is in order of last unpinning |
| `PageCacheLaws.ListIsUnpinned` | pcache/pcache.go:209-271 | in every run the list holds exactly the cached pages unpinned after they were last fetched |
| `CacheProcess.GaugeIsExact` | pcache/pcache.go:135-162 | over any interleaving of creations, callbacks and destructions on any number of cache objects, each event moves the caches as specified and the shared gauge is the number of pages they hold |
| `CacheProcess.EachCacheRuns` | pcache/pcache.go:182-335 | in every such history what happens to one cache object is a run of the cache, so the laws of runs hold of it |
| `CacheProcess.Process.Call` | pcache/pcache.go:209-335 | one callback on one cache is applied to it, leaves every other cache alone and keeps the shared gauge equal to the total |
| `Statements.NormalizeIs` | stmt_cache.go:74-74 | a cache key is its text without the white space around it, and normalizing is idempotent |
| `Statements.SameKeyIff` | stmt_cache.go:74-74 | two texts share a key iff they differ only in surrounding white space |
| `Statements.Conn.Take` | stmt_cache.go:79-94 | a hit moves the pair out of map and list to the caller, and its text has the key asked for |
| `Statements.Conn.Put` | stmt_cache.go:101-130 | the pair goes to the front; the same-key or least recent entry of a full cache goes to the caller; a disabled cache hands the pair back |
| `Statements.Conn.DrainAll` | stmt_cache.go:135-146 | all entries, most recent first, now the caller's |
| `Statements.Conn.NewStmt` | stmt.go:30-86 | hit, single statement, script, comment and each failure, with every handle and text accounted for; the statement's text equals the one asked for up to surrounding white space |
| `Statements.Conn.CloseStmt` | stmt.go:94-125 | donated with the loser destroyed, or both destroyed |
| `Statements.Conn.Exec` | stmt.go:144-310 | no handle is left over; fails iff some piece does; the pieces are run in order, once each, up to the first that fails |
| `Statements.Conn.Query` | stmt.go:342-527 | a prepared statement lends its handle; a script leaves one new handle, in the result set it returns, or none on failure; fails iff some piece stops it, the pieces run in order up to that one; the handle kept is that of the last piece if it is a statement, else of the last with rows, else of the first statement |
| `Statements.Conn.CloseRows` | rows.go:61-79 | a borrowed handle stays, an owned one is finalized |
| `Statements.Conn.QueryOnce` | conn.go:1110-1147 | the statement is gone; the surviving result set owns the stolen handle, whose SQL text is already freed; what ran is the text given, up to surrounding white space; a hit leaves the cache, and a failed query donates its lone statement on the way out |
| `Statements.Conn.Close` | conn.go:907-940 | exactly what the cache held is destroyed, once each; with nothing else open nothing is left alive, and as many were destroyed as made |
| `Statements.Session` | conn.go:907-940 | any sequence of calls: each does what it says to cache, statements and result sets and runs what it says; between any two, one owner per live handle and text, a cache of distinct keys within capacity, each the key of the text filed under it, and a handle's text alive iff a statement or the cache has the handle or the statement behind its result set is open; every finalize and free on a live object with no other owner; nothing lost at the end |
| `StatementLaws.CacheIsDonationOrder` | stmt_cache.go:101-130 | in every session the cache lists its keys by their last donation, the latest first |
| `StatementLaws.EvictsOldest` | stmt_cache.go:101-130 | a closed statement's donation to a full cache that lacks its key evicts exactly the key donated the longest ago; any other evicts no key |
| `Ids.IdGen.Next` | sqlite.go:854-870 | the least free id at or above 1 becomes live |
| `Ids.IdGen.Reclaim` | sqlite.go:872-889 | exactly that id stops being live; zero and unknown ids are ignored |
| `Ids.LeastFreeBound` | sqlite.go:854-870 | the least free id is at most the live count plus one |
| `Callbacks.CallbackTable.Register` | callback_table.go:28-34 | the closure is stored under the least free id |
| `Callbacks.CallbackTable.Drop` | callback_table.go:45-50 | exactly that entry and id go |
| `Callbacks.Conn.RegisterOn` | compat_register.go:60-151 | a refused registration leaves the registry as it was, an accepted one is remembered by the connection |
| `Callbacks.Conn.DropAll` | hooks.go:149-192 | every id of the connection goes |
| `Callbacks.Process.Register` | compat_register.go:60-151 | a registration on the objects is a mint step followed by a commit or an undo step, keeping every live id with one holder |
| `Callbacks.Process.CloseConn` | hooks.go:149-192 | closing a connection object is the close step |
| `Callbacks.RunsAreSound` | compat_register.go:60-151 | over any interleaving of connections each live id belongs to one connection |
| `Callbacks.LiveIdsResolve` | callback_table.go:28-50 | from its minting until its connection drops it, an id resolves to its closure whatever others do |
| `Callbacks.CloseRemovesOwn` | hooks.go:149-192 | closing a connection removes exactly its own ids |

## Left out

- The az compressor and SHA-256: parameters, with decode inverting encode and the digest injective on stored values; the compressor never fails.
- Corrupt rows (`checkChunk`, decode errors, undersized raw blocks): the invariant rules them out, so those branches are not modelled.
- `WriteAtFrom`, `copyInto`, `Objects`, `ListObjects`, `ListVersions`, labels and object timestamps: loops over the modelled operations or plain columns.
- A batch callback that goes on after a failed SQL statement: only refused arguments are ignored.
- Database opening, migration, read-only provisioning, vacuum, `ConnStore`, context cancellation, busy retry: each write transaction is one atomic step, rolled back on error.
- Object calls on hidden snapshot ids: `History.Run` follows a history up to the first such call; what Delete and NewVersion do to the version rows then is stated on the methods.
- Clock readings, calloc results, SQLite's step and prepare outcomes, row ids: parameters or unconstrained choices.
- Rounding, Kahan compensation, skewness and kurtosis in `ext/stats`.
- `FileLock.AdvisoryLock.Lock`: the writer's level is read from the recorded writer instead of through a second pointer.
- Region sizes and TLS of shared-memory groups; the xShmBarrier memory fence.
- Page objects of the page cache are named by their C block; page contents and sizes are not modelled.
- Statement cache counters, parameter bindings and their allocations, column metadata.
- The registries other than the callback table (commit, rollback, update hooks): one map entry per connection.
- Everything else in the repository: sessions, backup, virtual tables, VFS registration, DSN and SQL builders, gorm, observability; thin wrappers or text assembly that would only add easy members.
