# Verified model of the AOS kernel core

This project models the parts of the AOS x86_64 kernel that carry its hardest invariants and proves what they promise.

* **Memory.** The frame allocator (`kernel/pmm.c`) under four-level page tables with fork by sharing, copy-on-write faults, protection changes, tear-down and rollback (`kernel/vmm.c`). One ownership invariant spans every live address space; reference exactness, write isolation and the absence of leaks follow from it for every run.
* **Native filesystem.** AOSFS (`kernel/aosfs.c`) over the sector layer (`kernel/blkdev.c`), with a device that may fail at any call. Operations refine a map from paths to files, extents stay safe in every run short of an exact family of failed mounts, a remount rebuilds what was held, and the version 3 to 4 migration keeps every file.
* **Scheduler.** Round robin with thermal skipping (`kernel/process.c`), fork, exit and wait4 with their handoffs (`kernel/syscall/process_lifecycle.c`), and exactly when waiting is bounded.
* **Descriptors.** Reference counts of file handles, pipes, eventfds and sockets, including descriptors queued inside sockets (`kernel/syscall.c`, `kernel/syscall/`).
* **Exec and paths.** The initial user stack and the two path normalisers (`kernel/syscall.c`, `kernel/vfs.c`).
* **ELF loading.** The page list and both segment loaders (`kernel/elf64_loader.c`).
* **FAT32 chains, ext4 directory records, password records** (`kernel/fat32.c`, `kernel/ext4.c`, `kernel/credentials.c`).

Each component has two layers. The first is a pure state with one function per kernel operation and lemmas about whole runs. The second keeps the form of the C code: classes with mutable fields, arrays and loops, whose methods are proved to compute exactly the functions of the first layer. So a result about the functions is a result about the loops.

Where a property fails of the code, the code is kept and the exact condition is proved.

* Waiting for the processor is bounded if and only if no handoff takes it farther from the waiting process: `SchedulerRuns.BoundedIff`, for the kernel's operations `SchedulerRuns.KernelBoundedIff` and from boot on `SchedulerReach.BootBoundedIff`; `SchedulerRuns.HandoffsStarve` is the failing pattern.
* Extent safety is lost by some failed mounts, because the driver goes on with what they leave: `AosfsRuns.RunSafeIff` and `AosfsFailedMount.FailedMountSafeIff`, with `AosfsRuns.FailedMountWitness` as the failing run.
* A directory can be removed from under a file whose path is the directory's with a slash at the end: `AosfsTree.RunRootedIff`, with `AosfsTree.AbandonWitness`.
* A migration that fails while rewriting the table can lose bytes of old files: `AosfsInterrupted.InterruptedMigration` and `AosfsInterrupted.SurvivesIff` say which, with `AosfsLoss.MigrationCanLose`.
* A socket queued inside itself is never freed: `DescriptorReach.AllReachableIff`, with `DescriptorReach.SelfQueuedSocketStays`.
* The in-memory ELF loader drops segments that reach the last page: `ElfImage.InMemoryCompleteIff`, with `ElfImage.WrappedSegmentIsLost`.
* A record formatted with more than 1000000 iterations is refused: `Credentials.FormattedVerifies`.

`dafny verify dfyconfig.toml` checks the whole project.

## Files

| files | content |
|---|---|
| `Options` | the optional value used throughout |
| `Pmm`, `PmmFrames` | allocator on an abstract pool; packed bitmap, counts and boot setup |
| `PageTables`, `CowSpaces`, `CowTeardown`, `CowFork`, `CowForkRoom` | tables and translation; ownership invariant; tear-down; copying and when it succeeds |
| `CowRuns`, `CowTheorems`, `CowWrites`, `CowForkWrites`, `CowPrepare`, `Vmm` | runs of all operations; results about runs; effects on the acting space; stores after a fork; success of write preparation; the code of `kernel/vmm.c` |
| `LittleEndian`, `Blkdev`, `BlkdevScripts` | byte codecs; sector read-modify-write; scripts of device failures |
| `AosfsFormat`, `Aosfs`, `AosfsExtents`, `AosfsSteps`, `AosfsContents`, `AosfsViews`, `AosfsRules` | disk format; operations; extent safety; contents; refinement of the path map; fixed rules |
| `AosfsSound`, `AosfsProgress`, `AosfsMount`, `AosfsRemount`, `AosfsFailedMount`, `AosfsMigration`, `AosfsInterrupted`, `AosfsLoss`, `AosfsRuns`, `AosfsTree`, `AosfsDriver` | memory and disk in step; success conditions; mounting; what failed mounts leave; migration; its interruption and what that can lose; runs; the directory tree; the code of `kernel/aosfs.c` |
| `Scheduler`, `SchedulerRuns`, `SchedulerReach`, `ProcessLaws`, `ProcessTable` | selection, bounded waiting and the process array; runs of kernel operations and the exact condition; runs from boot; laws of those runs; the code of fork, exit and wait4 |
| `Descriptors`, `DescriptorRuns`, `DescriptorEffects`, `DescriptorOpens`, `DescriptorReach`, `DescriptorTables` | references; runs; effects on tables; opening; reachability; the code |
| `Paths`, `VfsPath`, `SyscallPath`, `PathTheorems` | the stack fold; the two normalisers, which the kernel also writes twice; results about both |
| `ExecStack`, `ExecStackBuilder` | exec stack and its construction |
| `ElfLoader`, `ElfImage`, `ElfHeaders`, `ElfRoom`, `ElfPageList` | the streaming loader; the in-memory loader; images by their headers; success conditions; the page array |
| `Fat32`, `Fat32Room`, `Fat32Image` | chains and contents; success conditions; the image |
| `Ext4Dirs`, `Ext4Blocks` | directory records; block buffers |
| `Sha256`, `Sha256Vectors`, `Credentials`, `Pbkdf2Standard`, `CredentialsCode` | hashing; a known digest; HMAC, PBKDF2 and records; the standard's form of PBKDF2; the buffers and loops |

## Model

| member | source | states |
|---|---|---|
| `Pmm.AllocKeeps` | kernel/pmm.c:152-168 | Allocation hands out a clear block, so never a reserved or referenced one, gives it exactly one reference and touches no other; it fails only when every bit is set |
| `Pmm.RetainKeeps` | kernel/pmm.c:170-182 | Retaining succeeds exactly on a block with 1 to 65534 references and adds one; otherwise nothing changes |
| `Pmm.FreeKeeps` | kernel/pmm.c:184-199 | Freeing drops one reference and clears the bit with the last one; a block without references, hence a reserved one, is never freed |
| `Pmm.PoolDetermined` | kernel/pmm.c:152-199 | Counts and reserved set determine the bitmap and free_blocks, so equal counts mean an equal allocator |
| `Pmm.AllocFailsIff` | kernel/pmm.c:152-168 | Allocation fails exactly when free_blocks is zero and otherwise takes one from it |
| `PmmFrames.FrameAllocator.MarkUsedRange` | kernel/pmm.c:21-39 | Sets exactly the bits of the blocks a byte range touches, keeping free_blocks equal to the clear bits |
| `PmmFrames.FrameAllocator.AddRegion` | kernel/pmm.c:74-91 | An available region clears exactly the blocks its 4096-byte steps reach below 1 GiB, raises total_blocks to its end if that is higher, and keeps the counter |
| `PmmFrames.FrameAllocator.Init` | kernel/pmm.c:41-150 | After boot no block is referenced, the reserved ones are exactly those outside available memory, below 1 MiB or in a kept image, and total_blocks is the highest end of a region |
| `PmmFrames.FrameAllocator.AllocBlock` | kernel/pmm.c:152-168 | The scan over the packed bitmap refines allocation on the abstract pool |
| `PmmFrames.FrameAllocator.RetainBlock` | kernel/pmm.c:170-182 | Refines retaining on the abstract pool |
| `PmmFrames.FrameAllocator.FreeBlock` | kernel/pmm.c:184-199 | Refines freeing on the abstract pool |
| `PmmFrames.FrameAllocator.BlockRefcount` | kernel/pmm.c:201-205 | Returns the abstract count, 0 outside memory |
| `PageTables.MapPageRefinesFlatMap` | kernel/vmm.c:40-121 | Four-level tables refine a flat map: mapping changes the translation of exactly one page of one root, to the frame, flags and effective rights that the leaf and the tables above it allow, also when a 2 MiB entry is split into its other 511 pages, and changes no translation at all when memory runs out |
| `CowWrites.MapFailsOnlyWhenFull` | kernel/vmm.c:81-121 | Mapping gives up only when no free block is left |
| `CowFork.FailedForkRollsBack` | kernel/vmm.c:319-388 | A copy that fails at any allocation or retain returns every count, the bitmap and free_blocks to their prior values; the source keeps its address-to-frame map and contents, up to WRITABLE becoming COW |
| `CowFork.ForkThenDestroyConserves` | kernel/vmm.c:309-388 | A copy followed by destroying the copy conserves the allocator and the source likewise |
| `CowForkRoom.ForkSucceedsIff` | kernel/vmm.c:319-388 | A copy succeeds exactly when there is a free frame for the new root and each table of the source and every frame it maps can take the references of its new mappings |
| `CowTheorems.RunKeepsGood` | kernel/vmm.c:123-388 | Every run of allocation, mapping, unmapping, faults, protection changes, forks, creations, tear-downs and user stores keeps the ownership invariant over all live address spaces |
| `CowTheorems.RunsAreIsolated` | kernel/vmm.c:152-388 | Write isolation: a run in which nothing is done for a space changes no byte it can read and none of its mappings, whatever all other spaces do |
| `CowTheorems.ForkShares` | kernel/vmm.c:319-388 | After a fork parent and child map the same frames with the same contents, read-only on both sides; a page that was writable or COW is COW on both, and all other flags stay |
| `CowTheorems.ForkCopiesKernel` | kernel/vmm.c:319-388 | The child root has exactly the present kernel slots of the parent root |
| `CowForkWrites.StoreAfterFork` | kernel/vmm.c:152-388 | With a frame free after the fork, a store by either side to a page the parent could write goes through: that side reads the page of the fork with one word changed, the other side the page of the fork |
| `CowTheorems.ChildSeesForkTime` | kernel/vmm.c:319-388 | The child goes on reading the pages of the parent as they were at the fork, through any later run of the others |
| `CowTheorems.SharedFramesAreReadOnly` | kernel/vmm.c:152-223 | A frame mapped at two places of the live spaces is writable through neither |
| `CowTheorems.ReferencesAreExact` | kernel/vmm.c:232-317 | In every reachable state each count equals the (space, page) pairs mapping the frame, plus one for a table page, plus what callers hold; the bit is set exactly when referenced or reserved; free_blocks counts the clear bits |
| `CowTheorems.BootedIsGood` | kernel/vmm.c:282-307 | The state after boot satisfies the ownership invariant |
| `CowTheorems.CreatedSpace` | kernel/vmm.c:282-307 | A created space has the kernel slots of its source and an empty user half; creation fails exactly when no block is free, changing nothing |
| `CowTheorems.NoRunLeaks` | kernel/vmm.c:232-317 | Whatever was done since boot, once the other spaces are gone and nothing is held, clearing the boot space gives back the allocator of the boot bit for bit |
| `CowWrites.CowFaultOpens` | kernel/vmm.c:152-171 | A resolved fault makes the page writable, through all four levels, with the same contents, and leaves every other page of the space as it was |
| `CowWrites.StoreGoesThroughIff` | kernel/vmm.c:152-171 | A store goes through exactly on a mapped page that is writable, or copy-on-write with a free frame if it is shared; then that word of that page changes and no other page of the space, and otherwise nothing |
| `CowWrites.CowFaultSucceedsIff` | kernel/vmm.c:152-171 | A fault is resolved exactly on a mapped copy-on-write page, with a free frame if it is shared; otherwise nothing changes |
| `CowWrites.ProtectSets` | kernel/vmm.c:202-223 | A protection change sets exactly the new flags on exactly that page, keeping contents, COW on read-only pages included; it fails only unmapped or for lack of memory, changing nothing |
| `CowWrites.UnmapRemoves` | kernel/vmm.c:123-145 | Unmapping returns the frame that was mapped, or 0, and leaves exactly that page unmapped |
| `CowWrites.PrepareOpensRange` | kernel/vmm.c:173-200 | A prepared range is writable, through all four levels, and reads as before, everything outside it is unchanged, and other spaces notice nothing even when it fails half-way |
| `CowPrepare.PrepareOneIff` | kernel/vmm.c:183-196 | One page is prepared exactly when it is a mapped user page that is writable, or copy-on-write with a free frame if it is shared; otherwise nothing changes |
| `CowPrepare.PrepareSucceedsIff` | kernel/vmm.c:173-200 | A range is prepared exactly when every page of it is a mapped user page that is writable or copy-on-write, and there is a free frame for each one still shared when its turn comes |
| `CowPrepare.AcceptedRange` | kernel/vmm.c:173-184 | A range of 48-bit addresses is accepted exactly when the page of every byte of it has a user slot in the root |
| `CowWrites.PagesAreNumbered` | kernel/vmm.c:173-200 | The page numbers of an accepted user range name distinct user pages, as the previous result needs |
| `Vmm.AddressSpaces.FindPageEntry` | kernel/vmm.c:40-58 | The walk finds the level-1 table exactly when all levels are present and none is huge |
| `Vmm.AddressSpaces.SplitHugeEntry` | kernel/vmm.c:60-79 | Refines the split of a 2 MiB entry |
| `Vmm.AddressSpaces.MapPage` | kernel/vmm.c:81-121 | Refines mapping |
| `Vmm.AddressSpaces.UnmapPage` | kernel/vmm.c:123-145 | Refines unmapping |
| `Vmm.AddressSpaces.HandleCowFault` | kernel/vmm.c:152-171 | Refines fault resolution |
| `Vmm.AddressSpaces.PrepareUserWrite` | kernel/vmm.c:173-200 | Opens every page the byte range touches; an empty range succeeds, one that wraps or leaves the user half fails without effect |
| `Vmm.AddressSpaces.ProtectPage` | kernel/vmm.c:202-223 | Refines the protection change |
| `Vmm.AddressSpaces.TableHasPresent` | kernel/vmm.c:225-230 | Says whether a table has a present entry |
| `Vmm.AddressSpaces.FreeTableSlots` | kernel/vmm.c:232-280 | Refines one level of the tear-down loops |
| `Vmm.AddressSpaces.DestroyUserSpace` | kernel/vmm.c:309-317 | Refines tear-down of a space |
| `Vmm.AddressSpaces.CreateUserSpace` | kernel/vmm.c:282-307 | Refines creation of a space with the kernel slots of another |
| `Vmm.AddressSpaces.CopyTableSlots` | kernel/vmm.c:319-388 | Refines one level of the copy loops |
| `Vmm.AddressSpaces.CopySpace` | kernel/vmm.c:319-388 | Refines the whole copy with its rollback |
| `Blkdev.WriteLoopSplices` | kernel/blkdev.c:167-201 | Sector read-modify-write splices exactly a prefix of the data at the offset, all of it on success, and changes no other byte of the device |
| `Blkdev.BlockDevice.ReadBytes` | kernel/blkdev.c:137-165 | Refines reading, any byte range, over block callbacks that may fail |
| `Blkdev.BlockDevice.WriteBytes` | kernel/blkdev.c:167-201 | Refines writing likewise |
| `AosfsFormat.EntryRoundTrip` | kernel/aosfs.c:535-553 | What a mount decodes from a table slot is what sync_entry encoded, every field |
| `AosfsFormat.SuperRoundTrip` | kernel/aosfs.c:487-512 | The superblock a format writes is the one a mount accepts |
| `AosfsFormat.DecodedOk` | kernel/aosfs.c:752-800 | Whatever the bytes, a decoded entry of a known kind fits its fields |
| `AosfsFormat.OldEntryDecodes` | kernel/aosfs.c:760-768 | An entry written without a valid mode decodes as encoded, with rwxr-xr-x for a directory, rwxrwxrwx for a symbolic link and rw-r--r-- for a file |
| `AosfsRules.AcceptedSuperblocks` | kernel/aosfs.c:500-525 | The superblocks of version 4 and of version 3 that a mount accepts, in plain numbers; none is both |
| `AosfsRules.ReservedNames` | kernel/aosfs.c:609-623 | Exactly one component below commands/ is reserved |
| `AosfsRules.CapacityDoubles` | kernel/aosfs.c:1141-1155 | An extent starts at 64 KiB and doubles until it suffices, or stops at the largest file size |
| `AosfsExtents.EntryWriteIsAtomic` | kernel/aosfs.c:535-553 | A table entry lies inside one block, so writing it happens entirely or not at all |
| `AosfsContents.ReserveKeeps` | kernel/aosfs.c:1124-1211 | Reserving space keeps the bytes of the file and of all others through doubling, growth in place and chunked relocation, successful or not |
| `AosfsViews.WriteRefinesSplice` | kernel/aosfs.c:1370-1419 | A successful write at an offset inside the file lays exactly the given bytes over it; no outcome changes its metadata, or bytes or metadata of another path |
| `AosfsViews.ResizeRefines` | kernel/aosfs.c:1274-1320 | A successful resize cuts the file or pads it with zeros; no outcome changes its metadata or another path |
| `AosfsViews.TruncateRefines` | kernel/aosfs.c:1253-1272 | A successful truncation empties the file; no outcome changes its metadata or another path |
| `AosfsViews.CreateRefines` | kernel/aosfs.c:932-990 | Creation adds one empty regular file, or accepts an existing one unchanged; no other path changes |
| `AosfsViews.MkdirRefines` | kernel/aosfs.c:996-1037 | Adds one directory where there was nothing; no other path changes |
| `AosfsViews.UnlinkRefines` | kernel/aosfs.c:1322-1341 | Removes exactly the first entry of a path that names a file, even when the table write then fails, on any safe volume; where paths are unique the path then names nothing |
| `AosfsViews.RmdirRefines` | kernel/aosfs.c:1343-1368 | Removes exactly the first entry of a directory, and only of one that nothing lies directly inside of |
| `AosfsViews.ReadReturnsView` | kernel/aosfs.c:1213-1251 | A read returns the bytes of the map, and on a device that answers it fails only outside the file |
| `AosfsProgress.ReserveSucceedsIff` | kernel/aosfs.c:1124-1211 | On a healthy device space is reserved exactly when the extent it leads to ends within storage |
| `AosfsProgress.RoomSuffices` | kernel/aosfs.c:1124-1211 | Free space for twice the size, or a first 64 KiB extent, and one alignment gap is always enough |
| `AosfsProgress.WriteSucceedsIff` | kernel/aosfs.c:1370-1419 | On a healthy device a write succeeds exactly when the path names a file, the end is within the size limit and there is room |
| `AosfsProgress.ResizeSucceedsIff` | kernel/aosfs.c:1274-1320 | The same for resizing a regular file |
| `AosfsProgress.TruncateSucceedsIff` | kernel/aosfs.c:1253-1272 | Truncation succeeds exactly on regular files |
| `AosfsProgress.UnlinkSucceedsIff` | kernel/aosfs.c:1322-1341 | Unlinking succeeds exactly on files |
| `AosfsProgress.RmdirSucceedsIff` | kernel/aosfs.c:1343-1368 | Removing succeeds exactly on empty directories that are not built in |
| `AosfsProgress.CreateSucceedsIff` | kernel/aosfs.c:932-990 | Creating a new path succeeds exactly when it is allowed there, its parent exists and a slot is free |
| `AosfsProgress.MkdirSucceedsIff` | kernel/aosfs.c:996-1037 | The same for directories |
| `AosfsRuns.ApplyOthers` | kernel/aosfs.c:932-1419 | No operation, failed or not, changes what another path names |
| `AosfsTree.PathSplits` | kernel/aosfs.c:225-249 | A path is its parent, a slash and a last component without slash, or a component of the root; it lies directly inside its parent |
| `AosfsTree.RunRootedIff` | kernel/aosfs.c:932-1368 | In fault-free runs everything named lies in the root, a built-in directory or a live directory, all the time, exactly when no event removes a directory while its name with a slash at the end is taken |
| `AosfsTree.FormattedRunsAreRooted` | kernel/aosfs.c:852-886 | The same from a formatted volume |
| `AosfsTree.TidyRunsAreRooted` | kernel/aosfs.c:932-1368 | So it holds in every fault-free run that adds no path ending in a slash |
| `AosfsTree.DirectoryAbandoned` | kernel/aosfs.c:1343-1368 | On every clean volume with two free slots: a directory is made, a file is created under its name with a slash at the end, and the directory is removed from under it |
| `AosfsTree.AbandonWitness` | kernel/aosfs.c:1343-1368 | The same run on a freshly formatted disk |
| `AosfsRuns.RunSafeIff` | kernel/aosfs.c:696-1419 | Extent safety over whole runs with any device failures: size within capacity, live extents in memory and on disk pairwise disjoint, clear of the table, below next_data_offset, which stays within storage, hold throughout exactly when each mount finds its superblock readable or no extent to lose, and no extent from the first unreadable entry on reaches beyond those before it |
| `AosfsRuns.RunKeepsSafe` | kernel/aosfs.c:696-1419 | In particular a run with only such harmless mounts ends with safe extents whatever else fails |
| `AosfsRuns.StepSaneIff` | kernel/aosfs.c:696-1419 | Of all single operations and mounts only a harmful mount ends safety |
| `AosfsRuns.FormattedRunsAreSafe` | kernel/aosfs.c:852-886 | The same condition for every run from a formatted volume |
| `AosfsRuns.RunThenRemount` | kernel/aosfs.c:535-553 | Remount agreement: after any fault-free run a mount rebuilds exactly the entries the driver held, its marks are beyond every live entry, and every path names the same file |
| `AosfsRuns.UntouchedFileSurvives` | kernel/aosfs.c:696-850 | A file no operation of a fault-free run names survives it unchanged, remounts included |
| `AosfsRuns.WrittenIsReadBack` | kernel/aosfs.c:1213-1251 | What was written is read back, whatever happens to other paths in between |
| `AosfsFailedMount.StoppedMountLeaves` | kernel/aosfs.c:706-800 | What a failed mount of any version 4 table leaves in use: the old table with reset marks when the superblock cannot be read, otherwise the slots before the one it stopped at, what a rejected entry leaves in that slot, and the mark rebuilt so far |
| `AosfsFailedMount.FailedMountLeaves` | kernel/aosfs.c:706-800 | For a sane volume exactly: the slots before the first unreadable entry as they are on disk, the others empty, and the mark rebuilt from the former |
| `AosfsFailedMount.SaneMountsIff` | kernel/aosfs.c:706-850 | A sane volume mounts exactly when its superblock and every entry can be read |
| `AosfsFailedMount.FailedMountSafeIff` | kernel/aosfs.c:706-850 | A failed mount leaves the volume safe exactly when, before it, there was no extent if the superblock is unreadable, and otherwise no extent on disk from the first unreadable entry on ended beyond those before it |
| `AosfsRuns.LostSuperblock` | kernel/aosfs.c:706-737 | One failed superblock read ends the safety of every volume that holds a non-empty file |
| `AosfsRuns.FailedMountWitness` | kernel/aosfs.c:706-737 | A concrete run: format a disk, create a file, write one byte, mount with an unreadable superblock; the volume that stays in use is unsafe |
| `AosfsRemount.FormatIsClean` | kernel/aosfs.c:852-886 | A successful format leaves an empty volume whose memory and disk agree; on a healthy device it succeeds exactly when the data area fits |
| `AosfsRemount.MountOfAnyTable` | kernel/aosfs.c:696-850 | A mount of any version 4 table writes nothing; when it succeeds memory is what the disk said, every extent ends below the rebuilt mark and the mark within storage, and extents are safe exactly when those on disk are disjoint; on a healthy device it succeeds exactly when every entry passes its checks |
| `AosfsRemount.MountIsSafe` | kernel/aosfs.c:696-850 | Whatever reads fail, a mount of a sane volume writes nothing, and one that succeeds gives a sane volume with the entries of the disk |
| `AosfsRemount.MountOfUnknown` | kernel/aosfs.c:738-850 | A device without a known superblock is taken for a new volume: success leaves it empty and safe, and on a healthy device it succeeds with memory and disk in agreement |
| `AosfsRemount.RemountAgrees` | kernel/aosfs.c:696-850 | Mounting a clean volume succeeds and rebuilds exactly the live entries |
| `AosfsMigration.FailedMigrationKeepsOld` | kernel/aosfs.c:738-848 | A migration that stops while copying leaves the version 3 superblock, table and data area untouched |
| `AosfsMigration.MigrateOneStops` | kernel/aosfs.c:752-810 | What a migration that stops at an entry leaves in its slot in memory: nothing new if it could not be read, otherwise the entry without an extent, or only its being in use if its kind is unknown |
| `AosfsMigration.MigrationPreserves` | kernel/aosfs.c:738-848 | A migration that succeeds keeps every file, metadata and bytes, each in an extent of its own, and the result is safe exactly when the version 3 data area lies within storage; on a healthy device it succeeds exactly on migratable volumes |
| `AosfsInterrupted.InterruptedMigration` | kernel/aosfs.c:837-849 | A migration that fails after copying, with the superblock still of version 3: the next mount succeeds and reads back every file, but for the bytes under the entries that the table rewrite got to |
| `AosfsInterrupted.SurvivesIff` | kernel/aosfs.c:837-849 | Such a file is unchanged exactly when none of those bytes differs from what unused entries put there |
| `AosfsLoss.StopsAnywhere` | kernel/aosfs.c:837-849 | For every entry of the new table some failures of a block device make it the first that is not written |
| `AosfsLoss.MigrationCanLose` | kernel/aosfs.c:837-849 | So on every migratable volume with such a byte some failures make the next mount read another file |
| `AosfsDriver.Instance.ParentPath` | kernel/aosfs.c:225-249 | The scan back to the last slash |
| `AosfsDriver.Instance.FindEntry` | kernel/aosfs.c:426-433 | Finds the first slot in use with that path |
| `AosfsDriver.Instance.SyncEntry` | kernel/aosfs.c:535-553 | Refines writing one entry through |
| `AosfsDriver.Instance.CreatePath` | kernel/aosfs.c:932-990 | Refines creation |
| `AosfsDriver.Instance.MkdirPath` | kernel/aosfs.c:996-1037 | Refines directory creation |
| `AosfsDriver.Instance.UnlinkPath` | kernel/aosfs.c:1322-1341 | Refines unlinking |
| `AosfsDriver.Instance.RmdirPath` | kernel/aosfs.c:1343-1368 | Refines directory removal |
| `AosfsDriver.Instance.ChooseCapacity` | kernel/aosfs.c:1141-1152 | The doubling loop |
| `AosfsDriver.Instance.ReserveExtent` | kernel/aosfs.c:1124-1211 | Refines reserving space, with its copy loop |
| `AosfsDriver.Instance.ReadPath` | kernel/aosfs.c:1213-1251 | Refines reading |
| `AosfsDriver.Instance.TruncatePath` | kernel/aosfs.c:1253-1272 | Refines truncation |
| `AosfsDriver.Instance.ResizePath` | kernel/aosfs.c:1274-1320 | Refines resizing, with its zeroing loop |
| `AosfsDriver.Instance.WritePath` | kernel/aosfs.c:1370-1419 | Refines writing |
| `AosfsDriver.Instance.FormatVolume` | kernel/aosfs.c:852-886 | Refines formatting |
| `AosfsDriver.Instance.MountVolume` | kernel/aosfs.c:696-850 | Refines mounting and migration, with what a failure leaves behind |
| `Scheduler.BoundedWaiting` | kernel/process.c:113-138 | While no handoff takes the processor farther from it, a process that stays ready and unthrottled is given the processor within 64 selections, a throttled one within 256, whatever all others do |
| `Scheduler.WaitBound` | kernel/process.c:258-286 | With any handoffs in between, the number of selections is bounded by the measure plus what the handoffs set it back |
| `SchedulerRuns.BoundedIff` | kernel/process.c:113-286 | Bounded waiting, exactly: for any set of handoffs that may occur, how often a ready process can be passed over is bounded if and only if no handoff between two others takes the processor farther from it |
| `SchedulerRuns.RunsAreMoves` | kernel/syscall/process_lifecycle.c:39-261 | Every run of timer ticks, yields, forks, exits and waits that passes over a ready process is a run of selections and handoffs that does, so the bounds hold of it |
| `SchedulerRuns.KernelBoundedIff` | kernel/syscall/process_lifecycle.c:39-261 | The same equivalence for runs of the kernel operations themselves, from any state |
| `SchedulerRuns.HandoffsStarve` | kernel/syscall/process_lifecycle.c:159-261 | For any process and any parent with a child slot nearer to it and no ready process between the two: fork, preemption by the child, its exit and wait4, repeated, starve the process through any number of selections |
| `SchedulerReach.CorneredFromBoot` | kernel/process.c:300-408 | From boot on, forks, ticks, exits and waits reach such a state for every process and every pair of slots in which the child slot is nearer and is not slot 0 |
| `SchedulerReach.BootBoundedIff` | kernel/process.c:300-408 | So the equivalence holds of the runs from boot, for all handoffs by processes other than the first |
| `ProcessLaws.ExitEffects` | kernel/syscall/process_lifecycle.c:159-261 | The child of a parent that waits for it is gone after its exit, that of any other parent is a zombie; either parent runs and waits no more, and no other slot changes; without a living parent all halts |
| `ProcessLaws.ForkEffects` | kernel/process.c:340-408 | The lowest dead slot gets a ready child with a fresh number, throttled as the policy says; no other slot changes, and without a slot nothing does |
| `ProcessLaws.WaitEffects` | kernel/syscall/process_lifecycle.c:39-101 | The lowest matching zombie is freed; without one nothing happens if told not to block or if no matching child is ready, and otherwise the caller waits and the lowest such child runs |
| `ProcessLaws.BootedRunsAreLively` | kernel/syscall/process_lifecycle.c:39-261 | In every run from boot, until the machine halts, the current process runs and no other does, process numbers are distinct, and whoever waits waits for a child that has not exited |
| `Scheduler.YieldProgress` | kernel/process.c:258-286 | Every selection that passes over a ready process decreases its pair of skip phases left and cyclic distance |
| `Scheduler.SelectedIsReady` | kernel/process.c:113-138 | A process is selected exactly when one is ready; it is ready, and a throttled one out of turn is taken only when all ready ones are throttled; only skip phases change |
| `Scheduler.ProcessList.SelectNextReady` | kernel/process.c:113-138 | Refines the selection over the process array |
| `Scheduler.ProcessList.Schedule` | kernel/process.c:258-286 | Refines giving up the processor |
| `Scheduler.ProcessList.PreemptFromInterrupt` | kernel/process.c:189-220 | Refines preemption by the timer |
| `ProcessTable.Processes.ForkProcess` | kernel/process.c:340-408 | Refines fork into the first dead slot |
| `ProcessTable.Processes.ExitProcess` | kernel/syscall/process_lifecycle.c:159-261 | Refines exit with its handoff to the parent |
| `ProcessTable.Processes.WaitForChild` | kernel/syscall/process_lifecycle.c:39-101 | Refines wait4: the first zombie is reaped, or else the processor goes to the first ready child |
| `Descriptors.ReleaseExact` | kernel/syscall.c:397-481 | Releasing a descriptor removes exactly one reference, through any depth of descriptors queued in sockets it frees |
| `Descriptors.RetainExact` | kernel/syscall.c:360-395 | Retaining adds exactly one reference |
| `DescriptorRuns.RunKeepsGood` | kernel/syscall.c:347-499 | After any run of open, pipe, socketpair, dup, dup2, close, fork, exit and descriptor passing, every count equals the table slots and queued descriptors naming the object |
| `DescriptorRuns.NoDanglingNoLeak` | kernel/syscall.c:347-499 | From boot on, no slot and no queued descriptor names a freed object, and every object in use is named by one |
| `DescriptorRuns.SendExact` | kernel/syscall/network.c:1932-2006 | Sending rights keeps the counts exact |
| `DescriptorRuns.ReceiveExact` | kernel/syscall/network.c:2008-2095 | Receiving rights, or dropping them for lack of room, keeps the counts exact |
| `DescriptorOpens.OpenFileInstalls` | kernel/syscall.c:501-530 | A new file is installed at the lowest free slot from 3 on, with one reference, exactly when there is a slot and a file; otherwise nothing changes |
| `DescriptorOpens.OpenDeviceInstalls` | kernel/syscall.c:532-542 | The same for devices, which take no object |
| `DescriptorOpens.OpenSocketInstalls` | kernel/syscall.c:553-610 | The same for sockets, new and with nothing queued |
| `DescriptorOpens.OpenEventInstalls` | kernel/syscall/ipc.c:9-44 | The same for eventfds |
| `DescriptorOpens.OpenPipeInstalls` | kernel/syscall/ipc.c:46-82 | A new pipe takes the two lowest free slots from 3 on, the reading end first, exactly when there are two and a pipe |
| `DescriptorOpens.OpenPairInstalls` | kernel/syscall/network.c:1457-1517 | Two new sockets, each the peer of the other, take the two lowest free slots, exactly when there are two of both |
| `DescriptorEffects.DupShares` | kernel/syscall.c:614-653 | A duplicate names the object of the original, which survives even if the replaced slot held the last other reference; no other slot changes |
| `DescriptorEffects.CloseDrops` | kernel/syscall.c:397-499 | Closing frees that slot only; every object loses one reference if the slot named it and one for each descriptor naming it in the queues of the sockets freed, at any depth; other queues stay |
| `DescriptorEffects.CloseDropsOne` | kernel/syscall.c:483-499 | Unless a socket with queued descriptors is freed, the object named there loses one reference and no other object loses any |
| `DescriptorEffects.ForkRetains` | kernel/process.c:375-376 | Fork gives the child a copy of the table, and every object gains exactly as many references as the parent has slots naming it |
| `DescriptorEffects.SendQueues` | kernel/syscall/network.c:1932-2006 | Sending queues the named descriptors at the peer in order, exactly when the message is sent and socket, descriptors and peer fit; otherwise nothing changes |
| `DescriptorEffects.ReceiveHandsOver` | kernel/syscall/network.c:2008-2095 | Receiving hands over exactly the queued descriptors |
| `DescriptorEffects.ReceiveDrops` | kernel/syscall/network.c:2066-2092 | Receiving without room in the table or the control buffer empties the queue and changes no table |
| `DescriptorReach.AllReachableIff` | kernel/syscall.c:397-481 | After any run from boot every object in use can be reached from a descriptor table exactly when no set of sockets is queued only inside itself |
| `DescriptorReach.SelfQueuedSocketStays` | kernel/syscall/network.c:1932-2006 | A concrete run that breaks it: a socket sent over its own pair, both ends closed, stays in use named by its own queue alone |
| `DescriptorReach.NoQueuedSockets` | kernel/syscall.c:397-481 | While no queued descriptor is a socket, every object in use is reachable from a table |
| `DescriptorTables.ObjectTables.RetainRefs` | kernel/syscall.c:360-395 | Refines retaining |
| `DescriptorTables.ObjectTables.ReleaseRefs` | kernel/syscall.c:397-481 | Refines recursive release; each level frees one more live socket, so it ends |
| `DescriptorTables.ObjectTables.CloseFd` | kernel/syscall.c:483-499 | Refines closing |
| `DescriptorTables.ObjectTables.ReleaseTable` | kernel/syscall/process_lifecycle.c:20-38 | Refines the release of a whole table |
| `DescriptorTables.ObjectTables.RetainTable` | kernel/syscall.c:1330-1339 | Refines retaining a whole table |
| `DescriptorTables.ObjectTables.InstallVnode` | kernel/syscall.c:501-530 | Refines opening a file |
| `DescriptorTables.ObjectTables.DupCommon` | kernel/syscall.c:614-653 | Refines duplication |
| `DescriptorTables.ObjectTables.ForkTable` | kernel/process.c:375-376 | Refines the descriptor part of fork |
| `DescriptorTables.ObjectTables.AllocateSlot` | kernel/syscall.c:259-270 | Finds the lowest free slot |
| `VfsPath.NormalizeIsFold` | kernel/vfs.c:99-162 | The scan, pop and append of normalize_path compute the stack fold over the components, failures included |
| `SyscallPath.CanonicalizeIsFold` | kernel/syscall.c:188-257 | So do those of canonicalize_path over the base and then the path |
| `PathTheorems.NormalFormOfPath` | kernel/vfs.c:128-162 | A normalised path fits the buffer, has no empty, dot or dot-dot component, and is the join of the stack fold over the components |
| `PathTheorems.NormalizeFits` | kernel/vfs.c:128-162 | Normalisation succeeds exactly when the path resolved so far fits after every component, and then gives the resolved path |
| `PathTheorems.NormalizeTwice` | kernel/vfs.c:128-162 | Normalising again changes nothing, in any buffer the result fits |
| `PathTheorems.NormalisersAgree` | kernel/syscall.c:240-257 | With an empty base the two normalisers, each with its own loop, agree on every path and buffer size, failures included |
| `PathTheorems.AbsoluteIgnoresBase` | kernel/syscall.c:240-257 | On absolute paths they agree whatever the base |
| `PathTheorems.RelativeIsNormalizedJoin` | kernel/syscall.c:213-257 | canonicalize_path of a relative path is normalize_path of base and path joined, overflows included |
| `PathTheorems.ResolvedInTwoSteps` | kernel/syscall.c:213-257 | Normalising a, then resolving relative b against it, equals normalising a/b, overflows included |
| `VfsPath.PopComponent` | kernel/vfs.c:99-107 | Removes the last component in the buffer |
| `VfsPath.AppendComponent` | kernel/vfs.c:109-126 | Appends a component exactly when it fits with its terminator |
| `VfsPath.NormalizePath` | kernel/vfs.c:128-162 | Refines normalisation in a caller buffer |
| `SyscallPath.FeedComponents` | kernel/syscall.c:213-238 | Refines the component loop in a caller buffer |
| `SyscallPath.CanonicalizePath` | kernel/syscall.c:240-257 | Refines canonicalisation in a caller buffer |
| `ExecStack.StackParsesBack` | kernel/syscall.c:892-1047 | On success rsp is 16-byte aligned and reading upwards gives the arguments, the environment and an auxiliary vector of distinct keys in which each key of the System V ABI has its value: program headers, page size, base, entry, owners, clock; platform, name and random bytes are where their keys point |
| `ExecStack.NoStoreCrossesPage` | kernel/syscall.c:812-834 | Of all 8-byte stores that building a stack makes, padding included, none crosses a page |
| `ExecStack.BuildSucceedsIff` | kernel/syscall.c:836-1047 | Building fails exactly when some string is too long; the stack never overflows |
| `ExecStackBuilder.UserStack.PushU64` | kernel/syscall.c:821-828 | Refines a push |
| `ExecStackBuilder.UserStack.CopyCString` | kernel/syscall.c:836-854 | Refines copying a string |
| `ExecStackBuilder.UserStack.BuildExecStack` | kernel/syscall.c:892-1047 | Refines building the stack in place |
| `ElfLoader.StreamedImageIsCorrect` | kernel/elf64_loader.c:559-621 | A successful streamed load has exactly the pages of the segments, every byte from the file or zero, a page writable exactly when a writable segment reaches it |
| `ElfHeaders.StreamedHeaders` | kernel/elf64_loader.c:559-621 | The same said of the program headers alone: a page is there exactly when a loadable header reaches it, writable exactly when such a one is, and each byte is that of the last header that fills it, or zero |
| `ElfHeaders.PlacedHeaders` | kernel/elf64_loader.c:704-759 | The same for the in-memory loader and the headers clear of the last page of the address space; every page is mapped with its permission |
| `ElfHeaders.AdmittedIff` | kernel/elf64_loader.c:559-585 | A header is refused exactly when its file part exceeds its memory or the file, or its memory is not below 2^64 |
| `ElfHeaders.BiasIs` | kernel/elf64_loader.c:536-551 | A fixed image has no bias; a dynamic one has none to take exactly when all of its pages lie above the base |
| `ElfImage.PlacedImageIsCorrect` | kernel/elf64_loader.c:704-759 | A successful in-memory load has exactly the pages of the segments that do not wrap around, every byte from the file or zero, each page mapped with the permissions of the segments that reach it |
| `ElfImage.LoadersAgree` | kernel/elf64_loader.c:704-759 | Whenever both loaders, each with its own loops, accept an image they give the same pages, bytes and flags |
| `ElfImage.InMemoryCompleteIff` | kernel/elf64_loader.c:704-759 | An accepted in-memory load is complete exactly when no segment reaches into the last page of the address space |
| `ElfImage.WrappedSegmentIsLost` | kernel/elf64_loader.c:718-727 | A segment that ends at the very top is accepted by the in-memory loader with nothing loaded, and refused by the streaming one |
| `ElfLoader.DisjointBytes` | kernel/elf64_loader.c:559-621 | With disjoint file ranges each segment byte is where its header says |
| `ElfLoader.OtherBytesAreZero` | kernel/elf64_loader.c:559-621 | Every byte no file range reaches is zero |
| `ElfLoader.BiasMovesLowest` | kernel/elf64_loader.c:536-551 | The load bias puts the lowest page at the base and no segment below it |
| `ElfRoom.StreamSucceedsIff` | kernel/elf64_loader.c:559-621 | With a reader that does not fail an image loads exactly when every header is valid, no segment reaches the last page of the address space and the pages the segments reach fit the page list and the free frames, of which it takes one each |
| `ElfRoom.PlaceSucceedsIff` | kernel/elf64_loader.c:704-759 | The same for the in-memory loader and the segments that do not wrap around |
| `ElfPageList.PageList.FindPage` | kernel/elf64_loader.c:130-142 | Binary search finds a page exactly when it is recorded |
| `ElfPageList.PageList.RecordPage` | kernel/elf64_loader.c:144-158 | Insertion keeps the list sorted and duplicate-free and adds exactly that page |
| `ElfPageList.PageList.LoadSegment` | kernel/elf64_loader.c:587-619 | Refines the page loop of the streaming loader |
| `ElfPageList.PageList.LoadStream` | kernel/elf64_loader.c:559-621 | Refines the streaming loader over the program headers |
| `ElfPageList.PageList.PlaceSegment` | kernel/elf64_loader.c:718-757 | Refines the page loop of the in-memory loader, with its direct copy and mapping |
| `ElfPageList.PageList.PlaceImage` | kernel/elf64_loader.c:704-759 | Refines the in-memory loader over the program headers |
| `ElfPageList.FindBias` | kernel/elf64_loader.c:536-551 | Refines the computation of the load bias |
| `Fat32.WriteSplicesFile` | kernel/fat32.c:808-851 | A successful write inside the file extends its chain only by free clusters, keeps all chains acyclic, terminated and disjoint and all tables equal, splices exactly the bytes, and leaves other files alone |
| `Fat32.ReadReturnsFile` | kernel/fat32.c:585-629 | Reading returns the bytes of the file, cut at its end |
| `Fat32.ClusterForExtends` | kernel/fat32.c:631-655 | Reaches the cluster at an index, extending the chain only by fresh zeroed clusters and only if it was shorter |
| `Fat32Room.WriteSucceedsIff` | kernel/fat32.c:808-851 | The write loop succeeds exactly when the clusters its end needs beyond the chain are free, and takes just those |
| `Fat32Room.ClusterForSucceedsIff` | kernel/fat32.c:631-655 | The same for reaching one cluster |
| `Fat32Image.Image.SetEntry` | kernel/fat32.c:165-176 | Sets the entry in every copy of the table |
| `Fat32Image.Image.FindFreeCluster` | kernel/fat32.c:194-207 | Finds the lowest free cluster |
| `Fat32Image.Image.GetClusterForOffset` | kernel/fat32.c:631-655 | Refines reaching a cluster with allocation |
| `Fat32Image.Image.WriteFile` | kernel/fat32.c:808-851 | Refines the write loop |
| `Fat32Image.Image.ReadFile` | kernel/fat32.c:585-629 | Refines reading |
| `Ext4Dirs.AddKeepsTiling` | kernel/ext4.c:534-588 | On tiled blocks a successful insert keeps the tiling and adds exactly one live entry, all others in order |
| `Ext4Dirs.AddThenFind` | kernel/ext4.c:534-621 | After inserting an absent name it resolves to the new inode, and every other name resolves as before |
| `Ext4Dirs.AddSucceedsIff` | kernel/ext4.c:534-588 | An insert succeeds exactly when some record of some block has the slack the new record needs |
| `Ext4Dirs.FindInIs` | kernel/ext4.c:590-621 | The record scan of a tiled block is a lookup among its live entries |
| `Ext4Blocks.AddInBlock` | kernel/ext4.c:548-584 | Refines the insert in a block buffer, in place |
| `Ext4Blocks.FindInBlock` | kernel/ext4.c:600-620 | Refines the lookup in a block buffer |
| `Ext4Blocks.Directory.AddDirEntry` | kernel/ext4.c:534-588 | Refines the insert over the blocks of a directory; names without a valid length are refused |
| `Ext4Blocks.Directory.FindDirEntry` | kernel/ext4.c:590-621 | Refines the lookup over the blocks |
| `Sha256.ChunkedIsOneShot` | kernel/credentials.c:121-150 | However a message is cut, init, updates and final give the hash of the whole padded message |
| `Sha256.FinalIsPadded` | kernel/credentials.c:134-150 | Padding inside the block buffer is the padding of section 5.1.1 of FIPS 180-4 |
| `Sha256Vectors.AbcDigest` | kernel/credentials.c:74-150 | The digest of abc is the one published for FIPS 180-4 |
| `Credentials.PassesAreHmac` | kernel/credentials.c:152-184 | The two streamed passes compute HMAC of the joined parts (section 2 of RFC 2104) |
| `Pbkdf2Standard.DerivedIsXor` | kernel/credentials.c:186-204 | The derived bytes are the exclusive or of the chain of section 5.2 of RFC 8018, from the salt with block number 1 on |
| `Credentials.HexRoundTrip` | kernel/credentials.c:217-234 | Decoding the hexadecimal form gives the bytes back |
| `Credentials.HexUnique` | kernel/credentials.c:210-234 | Text that decodes is the hexadecimal form of what it decodes to, but for the case of letters |
| `Credentials.RecordRoundTrip` | kernel/credentials.c:258-335 | A record parses back exactly while its iteration count is at most 1000000, and is refused beyond |
| `Credentials.AcceptedIffDigest` | kernel/credentials.c:305-335 | A well-formed record is accepted exactly when its digest is the PBKDF2 value |
| `Credentials.FormattedVerifies` | kernel/credentials.c:258-335 | A formatted record is accepted exactly for iteration counts up to 1000000 |
| `Credentials.AcceptedIsRecord` | kernel/credentials.c:305-335 | An accepted text is, but for the case of hexadecimal letters, the record it parses to, with the digest of the password |
| `Credentials.BufferSuffices` | kernel/credentials.c:258-286 | A buffer of 160 bytes suffices for every iteration count |
| `CredentialsCode.HashContext.Transform` | kernel/credentials.c:74-109 | Schedule and round loops compute the compression function |
| `CredentialsCode.HashContext.UpdateWith` | kernel/credentials.c:121-132 | Refines the update of the hash context |
| `CredentialsCode.HashContext.Finish` | kernel/credentials.c:134-150 | Refines padding and output |
| `CredentialsCode.HmacInto` | kernel/credentials.c:152-184 | Computes HMAC of the old contents of the message buffer, also when the result goes into that very buffer |
| `CredentialsCode.Pbkdf2Into` | kernel/credentials.c:186-204 | The reused value buffer computes PBKDF2 (section 5.2 of RFC 8018) |
| `CredentialsCode.HexToBytes` | kernel/credentials.c:225-234 | Refines hexadecimal decoding |
| `CredentialsCode.BytesToHex` | kernel/credentials.c:217-223 | Refines hexadecimal encoding |
| `CredentialsCode.DecimalText` | kernel/credentials.c:246-256 | Gives the decimal digits, never more than ten |
| `CredentialsCode.TextBuffer.Append` | kernel/credentials.c:236-244 | Appends all of a text or nothing, keeping the terminator |
| `CredentialsCode.FormatRecord` | kernel/credentials.c:258-286 | Refines formatting into a bounded buffer |
| `CredentialsCode.VerifyRecord` | kernel/credentials.c:305-335 | Refines verification |
| `ConstantTime.ConstantTimeEqual` | kernel/credentials.c:298-303 | The collected differences are zero exactly when the digests are equal |

## Left out

Memory
- Hardware effects: TLB flushes and CR3 loads are no-ops; memset and memcpy of a frame are one assignment.
- 64-bit table words: an entry is kept as a frame number and flags; PAGE_COW is one named bit among the low twelve, distinct from the others.
- Callers of the memory manager: a run maps only frames of which the caller holds the sole reference, with PRESENT and USER set; user halves hold no huge entries, as every user mapping made by the kernel does.
- CowWrites.ProtectSets: read-only protection is not claimed to last on a COW page, because the entry keeps the COW bit and a later fault makes it writable.
- Multiboot parsing in pmm_init: the memory map and the kept images are parameters.

AOSFS and the block layer
- The memory-backed mode, role-selector routing, the initrd overlay listing, lookup and dirent listing, symlinks, chmod and chown.
- Torn sectors: a failed sector write leaves the sector as it was.
- AosfsExtents.EntryWriteIsAtomic: assumes a block size that is a multiple of 256 and an aligned base, or a memory device, so that a table entry lies within one block.
- AosfsViews.WriteRefinesSplice: says nothing about the contents after a write that starts past the end of the file, because the code leaves the gap as it was on disk.
- AosfsTree.RunRootedIff: covers fault-free runs; with device failures a directory can vanish from the disk alone.
- AosfsRuns.RunThenRemount: assumes that inode numbers do not run out (next_inode plus the number of events below 2^64); devices end at least 1 GiB below 2^64.
- AosfsInterrupted.InterruptedMigration: a superblock write that fails after changing part of the superblock, as can happen on blocks of 256 bytes, is not covered.

Scheduler, descriptors, exec, paths
- Threads, vfork and changes of the thermal policy are no events of SchedulerRuns; as selections and handoffs they are covered by BoundedIff. Process numbers do not wrap around, and wait4 can store the status.
- SchedulerReach.BootBoundedIff: leaves out handoffs by the first process, which never exits; KernelBoundedIff covers them from any state.
- DescriptorRuns.NoDanglingNoLeak: an object that only a queue names counts as named; DescriptorReach says when it is also reachable.
- Saving and restoring registers, address-space switches and thermal sensing.
- Descriptor return codes, file positions, pipe and socket data and protocol state; kinds that name no counted object are one kind; counts are unbounded.
- Reading argument strings from user memory; the stack pages are one flat stretch of bytes and the random bytes a parameter.

ELF, FAT32, ext4, credentials
- ELF header and interpreter parsing, relocations and the final vmm_map_page calls; the page list stores page contents, and reader failures are a script. Frames left behind by a failed load are not followed.
- ElfRoom.StreamSucceedsIff: covers a reader that does not fail.
- The byte encoding of FAT entries and their top four bits, directory entries and path resolution of FAT32; geometry is valid, and offset plus length does not wrap around 64 bits.
- Fat32.ClusterForExtends: the model refuses links outside the data area, which the code does not check; on well-formed volumes there are none.
- Fat32Image.Image.GetClusterForOffset: refuses links 0, 1 and beyond the last cluster, which the code follows to wherever they point; what lies there is not modelled.
- Fat32Image.Image.WriteFile: inherits that refusal on malformed tables.
- Fat32Image.Image.ReadFile: inherits that refusal on malformed tables.
- ext4 block and inode allocation, extent mapping and block sizes above 4096; live names hold no NUL and inserted inodes are not 0.
- The legacy password verifier, salt generation and wiping; passwords are byte strings.

Everything else
- Drivers, interrupt and port code, tmpfs, networking protocols, the installer, sessions, userspace tools and vendored programs.
