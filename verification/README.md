# LeafOS: a Dafny model of its kernel protocols

LeafOS is a small x86_64 kernel with a UEFI loader. This project models its stateful cores and proves what
they keep, for every input and every run. `dafny verify dfyconfig.toml` checks the whole project.

## What is modelled

**The ext2 driver** (`Ext2*.dfy`). The disk is an array of blocks. On a machine with faults (`Disk.faulty`) a
read or a write may fail at any point, a failed write may leave that one block in any state, and the kernel heap may
be full; on one without, none of this happens. `write_file` allocates blocks that are free in the
on-disk bitmap, writes the data there, commits bitmaps, counters, inode and directory entry through an undo
log, and frees the old blocks through a second one. A disk is *well-formed* (`Ext2Reader.WellFormed`) when the
layout blocks are disjoint and in use, every live inode owns blocks that are in use and nobody else's, both
free counters equal the clear bits of the bitmaps, and the directories form a tree in which every file has one
name. `Ext2Fresh.FreshIsWellFormed` gives such a disk. `View` is the state a disk shows; the operations are proved
on bytes, and the theorems about paths on views. *Right counts* are kept as well, apart from the invariant, since most theorems do not need them: link counts
(`Ext2Links.LinkCounts`), two sectors for each block owned (`SectorCounts`), and the type byte of every directory
entry (`EntryKinds`). For each operation a function of the state alone
(`WriteRefusal`, `FileRefusal`, `DirectoryRefusal`, `MakeRefusal`) says which error, if any, it must report; on a
machine without faults the operation then succeeds exactly when there is none.
The main results are `Ext2Writer.WriteFile`, `Ext2Operations.RemoveFile`, `Ext2Operations.RemoveEmptyDirectory`,
`Ext2Mkdir.CreateDirectory`, the two round trips, and `Ext2Runs.Run` for whole runs.

**The scheduler** (`Tasks.dfy`, `Scheduler*.dfy`). Each locked section is one atomic step of a state machine
over sixteen slots. `Tasks` gives every step as a function of the whole state; the class in `Scheduler` updates
its fields in place and is proved to take exactly these steps. A blocked task carries the reason it blocked, and
the state counts selections. Neither exists in the scheduler and no step depends on them: they are there to
state that no wait is lost and that bypassing is bounded. `SchedulerLaws` follows single tasks over whole runs: the
status a task ends with reaches the wait that takes it, sleepers wake on time, and blocked tasks wake for a reason.

**Descriptors and pipes** (`Pipes.dfy`, `Descriptors.dfy`, `Inheritance.dfy`). A pipe is a ring buffer on an array. The tables of
all task slots are kept together, so that each pipe's reader and writer counts can be compared with the ends in
all tables; this holds before and after every system call, and during spawning for the table in flight too.
`Inheritance` says number by number what a new task gets. A mapping closes its source even where another mapping
has put a descriptor there; `Inheritance.TargetKept` is the exact condition under which a redirection takes effect.

**Page tables** (`PageTables.dfy`, `PageClone.dfy`, `DirectMap*.dfy`, `KernelTables.dfy`). Physical memory maps frames to tables of
512 entries. The processor's walk is a function of it, following section 4.5 of the Intel SDM, Volume 3A. An
entry is modelled by its fields: the frame it names and its flag bits.

**Frames and heap** (`Frame*.dfy`, `Heap*.dfy`). The allocator counts in pages, since all its ranges are page
aligned. The heap sees the memory manager as a number of frames, how many of them are on the stack of returned
frames, and the tables of its own slot; the mapper takes one frame per missing level and may refuse a page for
reasons of its own.

**The initrd** (`Ustar*.dfy`). The archive is a sequence of bytes in the "ustar Interchange Format" of the pax
utility (POSIX.1). The validator is proved to accept exactly a consistent tree, and the later lookups to be
total and independent of the order of entries. `UstarWriter` lays archives out field by field, independently of the
reader, and proves that they are read back as they were written.

Where the code and its documentation disagree the model follows the code: `wiki/Kernel-Architecture.md` says
that indirect ext2 writes are missing, but `write_file` implements them, and so does the model. A comment in
`src/kernel/src/memory/heap.rs` says that each rollback fits the reclaim cache; `HeapGrowth.Recovers` is the exact
condition, and `HeapGrowth.LargestChunkSticks` a case in which it does not.

## What is assumed

- The superblock fields have passed `mount` (`Ext2Disk.Mounted`). The write path accepts what `writable_metadata`
  accepts: 1024-byte blocks, one group, 128-byte inodes.
- One file system call runs at a time, under the driver's lock; one processor takes scheduler steps.
- Firmware page tables are not themselves pages that `AllocatePages` gives out.
- A caller of `deallocate_frame` owns the frame, as its safety contract demands.

## Model

| member | source | states |
|---|---|---|
| `Ext2Disk.Disk.Read` | src/kernel/src/fs/ext2.rs:129-139 | a read gives the block as it is on the disk or fails; it never changes the disk |
| `Ext2Disk.Disk.Write` | src/kernel/src/fs/ext2.rs:141-156 | a write replaces exactly one block; a failed one may leave that block, and no other, in any state |
| `Ext2Disk.BlockTransaction.Write` | src/kernel/src/fs/ext2.rs:77-91 | before a block is first written its old contents are logged, so whatever fails later the log still covers every difference from the disk at the start |
| `Ext2Disk.BlockTransaction.Rollback` | src/kernel/src/fs/ext2.rs:93-106 | if the rollback succeeds the disk is, block for block, what it was when the transaction began |
| `Ext2Pointers.CountedBlocksAreSupported` | src/kernel/src/fs/ext2.rs:416-428 | logical indices below `inode_block_count` never reach the unsupported indirection depth |
| `Ext2Pointers.PointerCache.Lookup` | src/kernel/src/fs/ext2.rs:430-485 | with its two cached tables the lookup returns what an uncached walk of the pointers returns, for any sequence of indices, until the first error |
| `Ext2Pointers.ReadInodeContents` | src/kernel/src/fs/ext2.rs:1678-1719 | reading block by block returns the first `limit` bytes that the pointer tree holds, with holes read as zeros |
| `Ext2Pointers.ContentsBytes` | src/kernel/src/fs/ext2.rs:1678-1719 | a read has the length of the file cut at the limit, and its byte `i` is byte `i % block_size` of the block the pointers give for `i / block_size`, or zero where that pointer is zero |
| `Ext2Owned.PushUnique` | src/kernel/src/fs/ext2.rs:1016-1022 | accepts a block just when it is on the disk and not collected yet |
| `Ext2Owned.CollectFileAllocations` | src/kernel/src/fs/ext2.rs:1024-1102 | returns every block the inode points at through all three kinds of pointer, each once, or refuses when one is off the disk or occurs twice |
| `Ext2Owned.DataBlockListed` | src/kernel/src/fs/ext2.rs:430-485 | every block a read of the file can reach is among the collected ones |
| `Ext2Owned.ReadContentsAgree` | src/kernel/src/fs/ext2.rs:1678-1719 | two disks that agree on the blocks an inode owns read the same for it |
| `Ext2Bitmap.FindFreeBit` | src/kernel/src/fs/ext2.rs:638-640 | finds the lowest clear bit below the count, or there is none |
| `Ext2Bitmap.FlipByte` | src/kernel/src/fs/ext2.rs:1152-1173 | the byte with one bit inverted is the byte with the mask of that bit added where it was clear and taken away where it was set, which is what or-ing it in and masking it out do |
| `Ext2Bitmap.ToggleMarks` | src/kernel/src/fs/ext2.rs:1152-1173 | changing one bit of the bitmap changes that bit and no other |
| `Ext2Bitmap.UsedToggle` | src/kernel/src/fs/ext2.rs:1152-1173 | the set of used blocks gains or loses exactly the block of the bit |
| `Ext2Bitmap.FreeAll` | src/kernel/src/fs/ext2.rs:979-1014 | clears exactly the given blocks, and succeeds if and only if they are distinct and all in use |
| `Ext2Bitmap.AllocateDataBlock` | src/kernel/src/fs/ext2.rs:642-650 | takes one free block, and fails only when none is free |
| `Ext2Bitmap.AllocateDataBlocks` | src/kernel/src/fs/ext2.rs:1418-1446 | takes that many distinct free blocks and marks exactly these, and fails only when there are fewer |
| `Ext2Inodes.ReadGroupDescriptor` | src/kernel/src/fs/ext2.rs:318-345 | the inode table of a group as its descriptor names it, checked against the disk size |
| `Ext2Inodes.LoadInode` | src/kernel/src/fs/ext2.rs:347-414 | returns the inode in its slot of the table, with every pointer checked against the disk size |
| `Ext2Inodes.DecodeEncode` | src/kernel/src/fs/ext2.rs:347-414 | decoding what `write_inode_fields` encodes gives the inode back, in a cleared or a reused slot |
| `Ext2Inodes.WriteInodeFields` | src/kernel/src/fs/ext2.rs:579-636 | writes one block: the table block with that slot re-encoded |
| `Ext2View.WriteInode` | src/kernel/src/fs/ext2.rs:579-636 | storing an inode changes that inode and leaves the others of the table alone |
| `Ext2Records.UsedFits` | src/kernel/src/fs/ext2.rs:669-742 | the used part of a record never exceeds its length, so the split cannot underflow |
| `Ext2Records.RoomIffAdd` | src/kernel/src/fs/ext2.rs:744-784 | the dry run finds room exactly when the add will |
| `Ext2RecordProofs.AddInserts` | src/kernel/src/fs/ext2.rs:669-742 | on a well-formed block, adding inserts exactly the new entry into the list of live entries and leaves a well-formed chain |
| `Ext2RecordProofs.RemoveDeletes` | src/kernel/src/fs/ext2.rs:854-908 | on a well-formed block, removing deletes exactly the first entry of that name and leaves a well-formed chain |
| `Ext2RecordProofs.RemoveFinds` | src/kernel/src/fs/ext2.rs:854-908 | on a well-formed block, removing succeeds exactly when the name is there, and otherwise reports not-found |
| `Ext2Directory.SpaceThenAdd` | src/kernel/src/fs/ext2.rs:744-784 | once the space check has succeeded, the later add to the unchanged block cannot report that there is no space |
| `Ext2Directory.FindDirectoryChild` | src/kernel/src/fs/ext2.rs:497-558 | the first record of that name over all blocks of the directory, or the first error met on the way |
| `Ext2Directory.AddDirectoryEntry` | src/kernel/src/fs/ext2.rs:669-742 | writes the one directory block with the new record in the first place that has room |
| `Ext2Directory.EnsureDirectoryEntrySpace` | src/kernel/src/fs/ext2.rs:744-784 | succeeds exactly when a record with room exists |
| `Ext2Directory.RemoveDirectoryEntry` | src/kernel/src/fs/ext2.rs:854-908 | writes the one directory block with the record merged into its predecessor or cleared |
| `Ext2Entries.FindChildIsFind` | src/kernel/src/fs/ext2.rs:497-558 | searching record by record is searching the list of names the directory defines |
| `Ext2Path.PathSplits` | src/kernel/src/fs/ext2.rs:799-833 | the components of a path are those of its parent followed by its final name |
| `Ext2Path.SpelledBack` | src/kernel/src/fs/ext2.rs:560-577 | a path spelled from names, each after a slash, has just these components |
| `Ext2Path.Lookup` | src/kernel/src/fs/ext2.rs:560-577 | follows the components one after the other from the root |
| `Ext2Path.ResolveParent` | src/kernel/src/fs/ext2.rs:799-833 | the directory that holds the last component, or why there is none |
| `Ext2Tree.PathUnique` | src/kernel/src/fs/ext2.rs:560-577 | in a consistent filesystem no file or directory is reached by two paths |
| `Ext2Reader.WalkIsPath` | src/kernel/src/fs/ext2.rs:560-577 | on a well-formed disk a lookup follows the directory tree and never fails |
| `Ext2Reader.ReadFile` | src/kernel/src/fs/ext2.rs:1646-1655 | returns what the disk determines for the path, or a fault |
| `Ext2Reader.ReadPathIsFile` | src/kernel/src/fs/ext2.rs:1646-1655 | on a well-formed disk reading a path gives the contents and the size of the file the tree has there, and nothing where it has none |
| `Ext2State.HoldingKept` | src/kernel/src/fs/ext2.rs:1417-1551 | any change that takes free blocks and gives back its own keeps every owned block in use and off the metadata |
| `Ext2State.ApartKept` | src/kernel/src/fs/ext2.rs:1417-1551 | and keeps the blocks of different inodes apart |
| `Ext2State.CountedKept` | src/kernel/src/fs/ext2.rs:934-977 | and keeps both free counters, in both places, equal to the clear bits |
| `Ext2Change.TreeAfterLink` | src/kernel/src/fs/ext2.rs:669-742 | linking a new name keeps the directories a tree |
| `Ext2Change.TreeAfterUnlink` | src/kernel/src/fs/ext2.rs:854-908 | unlinking a name keeps the directories a tree |
| `Ext2Files.LinkTheorem` | src/kernel/src/fs/ext2.rs:1517-1536 | after linking, the filesystem is consistent, the new path leads to the new inode, and every other path leads to the same file or directory and reads as before |
| `Ext2Files.UnlinkTheorem` | src/kernel/src/fs/ext2.rs:1246-1298 | after unlinking, the filesystem is consistent, the path leads nowhere, and every other path leads to the same file or directory and reads as before |
| `Ext2Files.ReplaceTheorem` | src/kernel/src/fs/ext2.rs:1512-1550 | replacing a file keeps the filesystem consistent, where every path leads, and what every other path reads |
| `Ext2Files.UnnoticedTheorem` | src/kernel/src/fs/ext2.rs:1452-1482 | writing only into free blocks keeps the filesystem consistent and every path reading as before |
| `Ext2Links.CountsAfterLink` | src/kernel/src/fs/ext2.rs:1104-1129 | where every directory has two links and one for each directory in it, and every file has one, a new name keeps that, given the one link more of a parent that gains a directory |
| `Ext2Links.CountsAfterUnlink` | src/kernel/src/fs/ext2.rs:1246-1298 | the same for a removed name and the one link less |
| `Ext2Links.CountsAfterReplace` | src/kernel/src/fs/ext2.rs:1507-1520 | the same for a file that is replaced |
| `Ext2Links.SectorsKept` | src/kernel/src/fs/ext2.rs:1487-1519 | where every file and directory counts two sectors for each block it owns, a change whose new inode does so keeps that |
| `Ext2Links.KindsAfterLink` | src/kernel/src/fs/ext2.rs:669-742 | where every entry carries the type byte of what it names, a new name that does keeps that |
| `Ext2Links.KindsAfterUnlink` | src/kernel/src/fs/ext2.rs:854-908 | the same for a removed name |
| `Ext2Links.KindsAfterReplace` | src/kernel/src/fs/ext2.rs:1507-1520 | the same for a file that is replaced |
| `Ext2Plan.ContentsStored` | src/kernel/src/fs/ext2.rs:1452-1482 | reading the planned inode through direct, single and double indirect pointers gives back exactly the contents, at any limit |
| `Ext2Plan.ListedIsTaken` | src/kernel/src/fs/ext2.rs:1024-1102 | collecting the blocks of a file just written gives exactly the data, pointer and leaf blocks that were allocated, as a multiset |
| `Ext2Layout.AllocatePlan` | src/kernel/src/fs/ext2.rs:1417-1446 | the blocks of the plan are distinct, were free, are exactly the newly marked ones, and are as many as the length needs; fails only when fewer are free |
| `Ext2Layout.WritePlan` | src/kernel/src/fs/ext2.rs:1453-1482 | stores contents and pointer tables, and writes nothing but blocks of the plan |
| `Ext2Tables.ReadAllocationTables` | src/kernel/src/fs/ext2.rs:910-932 | the descriptor and both bitmaps as they are on the disk |
| `Ext2Tables.UpdateFreeCounters` | src/kernel/src/fs/ext2.rs:934-977 | moves both counters in both places or writes nothing that the log does not cover; fails without a fault only when a counter would leave its range |
| `Ext2Tables.FreeDataBlocks` | src/kernel/src/fs/ext2.rs:979-1014 | the view loses exactly these blocks from its used set and its counters rise by their number; blocks that are in use and listed once are refused only by a fault |
| `Ext2Tables.UpdateDirectoryLinkCount` | src/kernel/src/fs/ext2.rs:1104-1129 | the inode with one link more or less, and nothing else of it changed; refused without a fault only when the inode is unsound or the count would leave its range |
| `Ext2Commit.Commit` | src/kernel/src/fs/ext2.rs:1494-1536 | the committed view: bitmap, inode bitmap, counters, inode and directory entry, each as intended, everything else as before; on failure the log covers the disk; an intent the counters and the directory have room for is stopped only by a fault |
| `Ext2Writer.CommitOrUndo` | src/kernel/src/fs/ext2.rs:1494-1550 | after any error but a failed recovery the disk is exactly what it was before the commit, also when the cleanup is undone on top of it; an intent that can be paid for is stopped only by a fault or a failed recovery |
| `Ext2Writer.SurveyDisk` | src/kernel/src/fs/ext2.rs:1369-1409 | what the writer has read agrees with the disk before anything is changed, and an error is a fault or what the disk determines |
| `Ext2Refusal.ParentIsPlace` | src/kernel/src/fs/ext2.rs:1369-1371 | on a well-formed disk resolving the parent gives the directory the tree has there, or the error the tree calls for |
| `Ext2Refusal.SpaceIsRoom` | src/kernel/src/fs/ext2.rs:744-784 | on a well-formed disk the space check fails only for a directory of several blocks or one with no room |
| `Ext2Refusal.SurveyIsRight` | src/kernel/src/fs/ext2.rs:1369-1409 | on a well-formed disk the survey reports exactly what is wrong with the path, and never a damaged filesystem |
| `Ext2Writer.CommitIsPaid` | src/kernel/src/fs/ext2.rs:1494-1550 | on a well-formed disk, once the survey and the allocation have succeeded, the commit and the cleanup meet every condition but the absence of faults |
| `Ext2Writer.TakenWereFree` | src/kernel/src/fs/ext2.rs:1453-1482 | the data is written only into blocks whose bit is clear on the disk |
| `Ext2WriteProof.WriteTheorem` | src/kernel/src/fs/ext2.rs:1367-1551 | a successful run on a well-formed disk writes exactly the file it was asked to write |
| `Ext2Writer.WriteFile` | src/kernel/src/fs/ext2.rs:1367-1551 | on any disk, an error other than a failed recovery leaves every block that was in use unchanged; on a well-formed disk every path then leads to and reads what it did; success keeps the disk well-formed and the counts and type bytes right, makes the path a regular file with its mode, its size and two sectors for each block it owns, makes it read exactly the contents at every limit, leaves every other path leading to the same file or directory with the same contents, and takes only free blocks; an error is a fault of a machine that has them, or the one the state calls for, and success means that it calls for none: a bad path, a size over the limit, too few free blocks or inodes, no room in the directory |
| `Ext2Empty.DirectoryIsEmpty` | src/kernel/src/fs/ext2.rs:1561-1632 | answers yes exactly when the directory defines no name but the two dots; a sound directory is refused only for a name the driver does not accept |
| `Ext2Remove.RemoveAllocations` | src/kernel/src/fs/ext2.rs:1246-1298 | the view after a removal: entry gone, inode and blocks freed, counters raised, parent link count lowered for a directory, all else as before; on a sound disk an error that is not a fault comes before any change |
| `Ext2Remove.GoneTheorem` | src/kernel/src/fs/ext2.rs:1246-1298 | such a removal keeps the filesystem consistent and the counts and type bytes right, makes exactly that path lead nowhere, and leaves every other path as it was |
| `Ext2Remove.CreateRemoveRestores` | src/kernel/src/fs/ext2.rs:1310-1332 | creating a file and then removing it restores both bitmaps and all four counters |
| `Ext2Operations.RemoveFile` | src/kernel/src/fs/ext2.rs:1310-1332 | on a well-formed disk success keeps it well-formed, a regular file was at the path and is gone with exactly its blocks and its inode, and every other path leads where it did and reads as before; an error is a fault of a machine that has them, or the one the state calls for, and then nothing has changed |
| `Ext2Operations.RemoveEmptyDirectory` | src/kernel/src/fs/ext2.rs:1334-1365 | the same for a directory, which held nothing but the two dots; the exact conditions of failure are stated for right link counts |
| `Ext2Mkdir.DotsRead` | src/kernel/src/fs/ext2.rs:1203-1221 | the block of a new directory parses as the two dot entries, for itself and for its parent |
| `Ext2Mkdir.Claim` | src/kernel/src/fs/ext2.rs:1189-1201 | claims the lowest free inode and a free block and marks exactly these two; fails only when one of the two is lacking |
| `Ext2Mkdir.CreateDirectoryIn` | src/kernel/src/fs/ext2.rs:1175-1244 | the view after the writes: one inode, one block, the dot entries, the new name and one more link of the parent, all else as before; on a sound disk an error that is not a fault comes before any change |
| `Ext2Mkdir.MadeTheorem` | src/kernel/src/fs/ext2.rs:1175-1244 | such a state is consistent with right counts and type bytes, the new path leads to an empty directory with its mode, one block and two sectors, and every other path leads where it did and reads as before |
| `Ext2Mkdir.LinksCanGrow` | src/kernel/src/fs/ext2.rs:1104-1129 | where link counts are right, that of a one-block directory is far from its sixteen-bit limit |
| `Ext2Mkdir.CreateDirectory` | src/kernel/src/fs/ext2.rs:1300-1308 | on a well-formed disk success keeps it well-formed, the path led nowhere and now leads to an empty directory, with its mode, size and sector count, that costs one free block and one free inode; with right link counts an error is a fault of a machine that has them, or the one the state calls for, and then nothing has changed |
| `Ext2Mkdir.MakeRemoveRestores` | src/kernel/src/fs/ext2.rs:1334-1365 | making a directory and then removing it restores both bitmaps and all four counters |
| `Ext2Runs.Run` | src/kernel/src/fs/ext2.rs:1300-1551 | over any run of the four operations the disk stays well-formed, right link counts, sector counts and type bytes stay right, and every path leads to the file or directory the last completed request about it says, or to what it did at the start; failed writes are passed over, and a run that a refusal ends leaves everything as the requests before it did |
| `Ext2Runs.WriteThenRead` | src/kernel/src/fs/ext2.rs:1646-1655 | after a successful write the reader returns exactly the contents, cut at its limit, and their full size |
| `Ext2Runs.RunThenRead` | src/kernel/src/fs/ext2.rs:1646-1655 | after such a run the reader returns exactly that |
| `SchedulerSafety.InitialInv` | src/kernel/src/tasking/scheduler.rs:131-138 | the empty table satisfies the invariant |
| `SchedulerSafety.StepKeeps` | src/kernel/src/tasking/scheduler.rs:253-477 | every atomic step keeps the invariant: exactly the current task runs, ids are distinct and below the next one, parents are older than children, sleepers have a deadline, the idle task is only ready or running, and no wait is lost |
| `SchedulerSafety.RunKeeps` | src/kernel/src/tasking/scheduler.rs:253-1356 | so it holds in every state of every run |
| `SchedulerSafety.TransitionKeeps` | src/kernel/src/tasking/scheduler.rs:316-331 | leaving the processor and selecting the next task keeps the invariant, provided a task that ends has no waiting parent and one that waits has reason to |
| `SchedulerSafety.ExitKeeps` | src/kernel/src/tasking/scheduler.rs:1079-1137 | ending the current task, alone or with its siblings, wakes the one parent that could be waiting |
| `SchedulerSafety.TerminateKeeps` | src/kernel/src/tasking/scheduler.rs:379-398 | ending another task wakes its parent if that is waiting |
| `SchedulerSafety.WaitKeeps` | src/kernel/src/tasking/scheduler.rs:1301-1356 | a task goes to sleep in the wait only with a matching child and none that has ended |
| `SchedulerSafety.ReapKeeps` | src/kernel/src/tasking/scheduler.rs:414-437 | an emptied slot is one that no waiting task depends on |
| `SchedulerSafety.PickFinds` | src/kernel/src/tasking/scheduler.rs:509-526 | a selection comes back empty only when no task is ready |
| `SchedulerRuns.NoLostChildWait` | src/kernel/src/tasking/scheduler.rs:1301-1356 | in every reachable state a task asleep in `wait_for_child` has a matching child, and none of its matching children has ended |
| `SchedulerRuns.EndingsAreFinal` | src/kernel/src/tasking/scheduler.rs:379-437 | once a task has ended, its record stays the same until it is reaped, and its id is never used again, over every run |
| `SchedulerRuns.SomeoneRuns` | src/kernel/src/tasking/scheduler.rs:316-331 | an ordinary task that yields, blocks or ends leaves a task running |
| `SchedulerRuns.SleeperLeavesSomeone` | src/kernel/src/tasking/scheduler.rs:333-343 | the same for a task that goes to sleep |
| `SchedulerRuns.ExitLeavesSomeone` | src/kernel/src/tasking/scheduler.rs:1079-1137 | the same for a task that exits |
| `SchedulerRuns.WaitLeavesSomeone` | src/kernel/src/tasking/scheduler.rs:1301-1356 | the same for a task that waits; the wait never reports that nothing is runnable |
| `SchedulerRuns.MannedRun` | src/kernel/src/tasking/scheduler.rs:765-785 | in every reachable state with a current task the idle task is installed |
| `SchedulerRuns.RunsStopOnlyWhenDone` | src/kernel/src/tasking/scheduler.rs:952-979 | in every reachable state with a current task, a step leaves the processor without one exactly when it is a round of the idle loop and no ordinary task is left |
| `SchedulerRuns.SelectCloser` | src/kernel/src/tasking/scheduler.rs:509-526 | a selection that passes over a ready task brings the cursor closer to it |
| `SchedulerRuns.BypassesAreBounded` | src/kernel/src/tasking/scheduler.rs:285-343 | while a task stays ready, every selection is paid for by the cyclic distance to its slot, so fewer than sixteen can happen |
| `SchedulerRuns.SelectedInTime` | src/kernel/src/tasking/scheduler.rs:509-526 | over any run with sixteen selections, a task ready at the start has been selected, or has been ended, on the way |
| `Scheduler.Scheduler.SelectNext` | src/kernel/src/tasking/scheduler.rs:509-526 | one selection step: the first ready ordinary task around the table from the start, else the idle task |
| `Scheduler.Scheduler.Start` | src/kernel/src/tasking/scheduler.rs:285-290 | selects from slot 0 unless a task is already current |
| `Scheduler.Scheduler.TransitionCurrent` | src/kernel/src/tasking/scheduler.rs:316-331 | one transition step with its result, including the refusals |
| `Scheduler.Scheduler.YieldCurrent` | src/kernel/src/tasking/scheduler.rs:295-297 | one yield step |
| `Scheduler.Scheduler.BlockCurrent` | src/kernel/src/tasking/scheduler.rs:304-306 | one block step |
| `Scheduler.Scheduler.SleepCurrentUntil` | src/kernel/src/tasking/scheduler.rs:333-343 | one sleep step; the idle task is refused |
| `Scheduler.Scheduler.WakeExpiredSleepers` | src/kernel/src/tasking/scheduler.rs:345-356 | exactly the sleepers whose deadline has passed, on a counter that wraps, become ready |
| `Scheduler.Scheduler.HasLiveNonIdleTasks` | src/kernel/src/tasking/scheduler.rs:358-363 | whether some ordinary task has not ended |
| `Scheduler.Scheduler.WakeTask` | src/kernel/src/tasking/scheduler.rs:365-377 | one wake step; only a blocked task can be woken |
| `Scheduler.Scheduler.TerminateTask` | src/kernel/src/tasking/scheduler.rs:379-398 | one step that ends another task, with its refusals |
| `Scheduler.Scheduler.WakeAllBlocked` | src/kernel/src/tasking/scheduler.rs:400-406 | every blocked task becomes ready and nothing else changes |
| `Scheduler.Scheduler.ReapTerminated` | src/kernel/src/tasking/scheduler.rs:414-437 | empties the slot of a task that has ended, with its refusals |
| `Scheduler.Scheduler.FindTerminatedChild` | src/kernel/src/tasking/scheduler.rs:439-461 | the first matching child that has ended, else which of the three errors applies |
| `Scheduler.Scheduler.WakeParentOf` | src/kernel/src/tasking/scheduler.rs:463-477 | the parent becomes ready if it is blocked |
| `Scheduler.Scheduler.CheckTaskCapacity` | src/kernel/src/tasking/scheduler.rs:246-251 | the lowest free slot or that the table is full |
| `Scheduler.Scheduler.InsertTask` | src/kernel/src/tasking/scheduler.rs:253-283 | a new ready task in the lowest free slot under the next id; nothing changes on an error |
| `Scheduler.Scheduler.SpawnTask` | src/kernel/src/tasking/scheduler.rs:754-763 | one spawn step, which keeps a slot for the idle task and takes the current task as parent |
| `Scheduler.Scheduler.EnterTasks` | src/kernel/src/tasking/scheduler.rs:765-785 | one step that installs the idle task if needed and starts scheduling; it reports the task now running, fails only when one was running or the idle task could not be made, and never for want of a runnable task |
| `Scheduler.Scheduler.LeaveTasks` | src/kernel/src/tasking/scheduler.rs:792-808 | one step that drops the idle task once back in the boot context |
| `Scheduler.Scheduler.PreemptFromTimer` | src/kernel/src/tasking/scheduler.rs:839-871 | one timer step: sleepers are woken, then the current task yields |
| `Scheduler.Scheduler.IdleLoopRound` | src/kernel/src/tasking/scheduler.rs:952-979 | one round of the idle loop: back to the boot context when no task is left |
| `Scheduler.Scheduler.ExitCurrent` | src/kernel/src/tasking/scheduler.rs:1079-1137 | one exit step, for the task or for its whole group |
| `Scheduler.Scheduler.WaitForChild` | src/kernel/src/tasking/scheduler.rs:1301-1356 | one round of the wait loop with its outcome: a child taken with its exit code, an error, or asleep; `SchedulerLaws.StatusArrives` says which code that is |
| `SchedulerLaws.EndingRecorded` | src/kernel/src/tasking/scheduler.rs:1079-1137 | a task that exits, that is ended by the exit of its group, or that is killed is recorded as ended with that status, under its own id and parent |
| `SchedulerLaws.WaitReports` | src/kernel/src/tasking/scheduler.rs:1301-1330 | a wait that takes a child takes an ended child of the waiter, the one asked for if one was, reports the status it left, and removes it and nothing else |
| `SchedulerLaws.WaitTakes` | src/kernel/src/tasking/scheduler.rs:1301-1330 | a wait for an ended child by its id takes it, unless its address space cannot be torn down |
| `SchedulerLaws.StatusArrives` | src/kernel/src/tasking/scheduler.rs:1079-1356 | over any run: whichever wait takes a task that ended by its own exit, the exit of its group or a kill reports exactly the status of that ending |
| `SchedulerLaws.StatusAwaits` | src/kernel/src/tasking/scheduler.rs:1079-1356 | over any run: as long as such a task has not been taken, its parent gets that status by waiting for it |
| `SchedulerLaws.TakenOnce` | src/kernel/src/tasking/scheduler.rs:414-437 | over any run: a task that a wait has taken is never taken again |
| `SchedulerLaws.CreateBears` | src/kernel/src/tasking/scheduler.rs:754-763 | a task is created exactly when a slot is left beside the one kept for the idle task, an id is left and its setup succeeds; it is then a ready child of whoever runs, under the next id, and nothing else changes |
| `SchedulerLaws.FallsAsleep` | src/kernel/src/tasking/scheduler.rs:333-343 | a running task that goes to sleep sleeps until the deadline it named |
| `SchedulerLaws.SleeperStep` | src/kernel/src/tasking/scheduler.rs:345-356 | a sleeper is made ready by the step that reads the clock less than half its range after the deadline, and no other step but its end disturbs it |
| `SchedulerLaws.SleepsUntilReached` | src/kernel/src/tasking/scheduler.rs:333-356 | over any run in which no such clock is read and nobody ends it, a sleeper sleeps on until the same deadline |
| `SchedulerLaws.BlockedStep` | src/kernel/src/tasking/scheduler.rs:365-406 | a blocked task is made ready by a wake-up of its id, by the wake-up of all, or by the end of one of its children, and no other step but its end disturbs it |
| `SchedulerLaws.EnterRuns` | src/kernel/src/tasking/scheduler.rs:765-785 | entering runs some task, and fails only when the idle task is needed and cannot be made |
| `SchedulerLaws.IdleStops` | src/kernel/src/tasking/scheduler.rs:952-979 | the idle loop goes back to the boot context exactly when every other task has ended |
| `SchedulerLaws.ReturnDropsIdle` | src/kernel/src/tasking/scheduler.rs:792-808 | back there the idle task is gone and every other task is as it was |
| `Pipes.RingPush` | src/kernel/src/tasking/fd.rs:110-118 | writing at the tail appends one byte to what the ring holds |
| `Pipes.RingPop` | src/kernel/src/tasking/fd.rs:100-108 | reading at the head takes the oldest byte |
| `Pipes.Pipe.Read` | src/kernel/src/tasking/fd.rs:100-108 | returns the oldest bytes; bytes read followed by bytes buffered stay equal to bytes accepted |
| `Pipes.Pipe.Write` | src/kernel/src/tasking/fd.rs:110-118 | accepts as much as fits, in order, and keeps that equality |
| `Descriptors.Descriptors.Clone` | src/kernel/src/tasking/fd.rs:46-63 | a copied pipe end is counted |
| `Descriptors.Descriptors.Drop` | src/kernel/src/tasking/fd.rs:65-79 | a dropped end was counted, so the saturating subtraction never saturates |
| `Descriptors.Descriptors.CreatePipe` | src/kernel/src/tasking/scheduler.rs:1230-1241 | a new pipe has one reader and one writer at the two lowest free numbers; it fails exactly when there is no task or fewer than two numbers are free, and then both ends are dropped and the tables are unchanged |
| `Descriptors.Descriptors.Close` | src/kernel/src/tasking/scheduler.rs:1243-1260 | empties one number; every count stays the number of ends in all tables |
| `Descriptors.Descriptors.Duplicate` | src/kernel/src/tasking/scheduler.rs:1262-1295 | the target number becomes a copy of the source and what it held is dropped; counts stay right |
| `Descriptors.Descriptors.Inherit` | src/kernel/src/tasking/scheduler.rs:182-219 | the child table is the copied table after mappings, closed sources and closed numbers, as `Inheritance.ChildTraces` describes it; an invalid number drops the whole copy and changes nothing; counts stay right |
| `Descriptors.Descriptors.ApplyMappings` | src/kernel/src/tasking/scheduler.rs:192-204 | each mapping in turn puts a copy of its source at its target, as `Inheritance.MappedTraces` describes the result; counts stay right |
| `Inheritance.MappedTraces` | src/kernel/src/tasking/scheduler.rs:192-204 | for every list of mappings: they succeed exactly when all numbers are in range and every source is held when its turn comes, and each number then holds what the parent held at the number that the mappings, read backwards, lead to |
| `Inheritance.ChildTraces` | src/kernel/src/tasking/scheduler.rs:192-219 | for every list of mappings and closings: when the child gets a table, and what it holds at every number: nothing where it is closed or moved away, else what the mappings lead to |
| `Inheritance.SeparateMappings` | src/kernel/src/tasking/scheduler.rs:192-219 | where no target is a target twice or the source of another mapping: each target not closed holds what the parent has at the source, moved and closed numbers are empty, every number not mentioned is inherited, and a number free in the parent is filled only as a target |
| `Inheritance.TargetKept` | src/kernel/src/tasking/scheduler.rs:192-219 | in general the last mapping to a target puts there what the mappings before it left at its source, and it stays exactly when the number is not closed and not the source of a mapping to another number |
| `Inheritance.SwapLosesBoth` | src/kernel/src/tasking/scheduler.rs:205-211 | so a swap through a spare number loses both descriptors |
| `Descriptors.Descriptors.CloseSources` | src/kernel/src/tasking/scheduler.rs:205-211 | sources that were moved elsewhere are closed |
| `Descriptors.Descriptors.CloseNumbers` | src/kernel/src/tasking/scheduler.rs:212-219 | the listed numbers are closed, up to an invalid one |
| `Descriptors.Descriptors.Reap` | src/kernel/src/tasking/scheduler.rs:435-436 | the table of a reaped task is emptied and all its ends are given up |
| `Descriptors.Descriptors.Read` | src/kernel/src/tasking/fd.rs:168-198 | a pipe gives the smaller of what is asked for and what it holds; an empty one would block exactly when some table holds a writing end of it, and else reports end of file; a descriptor that cannot be read is refused |
| `Descriptors.Descriptors.Write` | src/kernel/src/tasking/fd.rs:200-231 | a pipe takes the smaller of what is offered and its free room; it is broken exactly when no table holds a reading end of it, and would block exactly when it is full and something is offered; a descriptor that cannot be written is refused |
| `Descriptors.ChildHoldsNoMore` | src/kernel/src/tasking/scheduler.rs:182-219 | everything a child holds its parent held |
| `Descriptors.FreePair` | src/kernel/src/tasking/scheduler.rs:111-117 | the two lowest free numbers, or fewer than two are free |
| `PageTables.Memory.AllocateZeroed` | src/bootloader/UEFI/boot_main.c:317-331 | a page nobody uses, filled with absent entries, or nothing |
| `PageClone.CloneLevel` | src/bootloader/UEFI/boot_main.c:263-315 | writes only the destination and new pages; on success the destination is a copy of the source with every table below it in a new page |
| `PageClone.CopyTranslates` | src/bootloader/UEFI/boot_main.c:263-315 | every walk of a copy, also through the root as a lower table, ends at the same level with the same flags, and at the same address exactly when the last entry is one the copy neither descends into nor redirects at its level of the tree |
| `PageClone.AwayFromRoot` | src/bootloader/UEFI/boot_main.c:263-315 | the last entry of a walk that meets the original root nowhere is one the copy keeps |
| `PageClone.RecursiveWalkMoves` | src/bootloader/UEFI/boot_main.c:283-289 | where an entry of the root names the root itself, reading a table through it finds the copy instead of the original |
| `PageClone.CloneRoot` | src/bootloader/UEFI/boot_main.c:632-650 | under the new root every address translates as under the old one before the call, up to such entries; the old tables are unchanged and every table below the new root is a new page |
| `DirectMapBuild.EnsurePhysicalPageDirectory` | src/bootloader/UEFI/boot_main.c:333-371 | finds or makes the level 2 table; it is never refused and maps nothing |
| `DirectMapBuild.EnsurePhysicalPageTable` | src/bootloader/UEFI/boot_main.c:373-400 | finds or makes the level 1 table; refused only inside a huge page |
| `DirectMapBuild.MapPhysicalPage4KiB` | src/bootloader/UEFI/boot_main.c:422-442 | refused only when the page is mapped; otherwise maps that page and no other |
| `DirectMapBuild.FillBlock` | src/bootloader/UEFI/boot_main.c:460-477 | fills an existing level 1 table and keeps what was in it |
| `DirectMapBuild.MapPhysicalPage2MiB` | src/bootloader/UEFI/boot_main.c:444-486 | refused only when the block is a huge page; otherwise maps the block and nothing else |
| `DirectMapBuild.MapPhysicalMemoryRange` | src/bootloader/UEFI/boot_main.c:488-526 | adds exactly the pages of the range, refused only when one of them was mapped; the two size checks fail only for ranges that overflow or leave the window |
| `DirectMapBuild.MapAll` | src/bootloader/UEFI/boot_main.c:589-605 | disjoint ranges in any order are never refused, and exactly their pages are mapped |
| `DirectMapBuild.ChooseSlot` | src/bootloader/UEFI/boot_main.c:539-548 | the lowest free slot of the upper half |
| `DirectMapBuild.DirectMapTheorem` | src/bootloader/UEFI/boot_main.c:549-550 | at the offset of the window every mapped byte translates to itself, for data only, and every other address faults |
| `DirectMapBuild.BuildPhysicalMemoryMapping` | src/bootloader/UEFI/boot_main.c:528-612 | for disjoint ranges below 512 GiB: success or out of pages, never refused, and then offset + p translates to p exactly for the bytes of the ranges, writable through every level and never executable; nothing changes but pages that were free and one slot of the root that was not in use |
| `KernelTables.CopyKeepsWalks` | src/bootloader/UEFI/boot_main.c:643-655 | filling one slot of the new root with new tables leaves every walk alone that does not come to that slot |
| `KernelTables.CloneActivePageTables` | src/bootloader/UEFI/boot_main.c:614-659 | under the final root the window finds every byte of RAM at itself and nothing else, and every walk that does not come to its slot ends as under the old root, up to entries that name a copied table; a walk that does come there found nothing before; old tables are unchanged |
| `Frames.ValidateMemoryMap` | src/kernel/src/memory/mod.rs:326-385 | accepts exactly the maps that are not empty, aligned, below the limit and pairwise disjoint |
| `Frames.PageCoveringRange` | src/kernel/src/memory/mod.rs:387-410 | exactly the pages that hold a byte of the object; fails exactly when it does not end below the limit |
| `Frames.UpcomingDistinct` | src/kernel/src/memory/mod.rs:516-551 | the cursor visits no frame twice; this rests on the disjointness the validator checked |
| `Frames.UpcomingIs` | src/kernel/src/memory/mod.rs:516-551 | from the start it visits exactly the conventional frames that are not reserved |
| `Frames.CountUncovered` | src/kernel/src/memory/mod.rs:590-605 | one pass over ranges sorted by start counts the pages outside their union, overlaps counted once |
| `FrameAllocator.FrameAllocator.NextUsableFrame` | src/kernel/src/memory/mod.rs:516-551 | hands out a frame nobody owns: the last returned one, else the next of the cursor; none only when none is left; owned, returned and unvisited frames stay apart and together stay the same set |
| `FrameAllocator.FrameAllocator.ReclaimFrame` | src/kernel/src/memory/mod.rs:553-561 | puts the frame first in the supply, or refuses when the stack is full |
| `FrameAllocator.FrameAllocator.AvailableFrameCount` | src/kernel/src/memory/mod.rs:566-611 | the fast count is the number of frames that can still be handed out |
| `FrameAllocator.FrameAllocator.IsAllocatableFrame` | src/kernel/src/memory/mod.rs:613-631 | whether the frame is conventional and not reserved |
| `FrameAllocator.FrameAllocator.DeallocateFrame` | src/kernel/src/memory/mod.rs:694-705 | a frame its caller owns is refused only when the stack is full, and then stays owned; the partition of frames is kept |
| `Heap.RequiredIsExact` | src/kernel/src/memory/heap.rs:77-111 | the preflight is exactly the frames that mapping the next pages takes, one per page and one per missing table |
| `Heap.RequiredAdds` | src/kernel/src/memory/heap.rs:77-111 | growing in two steps needs what growing at once needs |
| `Heap.GrowthPagesForLayout` | src/kernel/src/memory/heap.rs:67-75 | the minimum is the fewest pages that hold the allocation, the target the fewest that also hold its alignment slack; none only on overflow |
| `Heap.GrowthChunkPages` | src/kernel/src/memory/heap.rs:113-124 | a chunk is at most 256 pages, fits the room, does not pass the target, and is empty only when there is no room |
| `Heap.CheckedGrowthStart` | src/kernel/src/memory/heap.rs:142-170 | given exactly when the whole heap stays in one lower-half slot; every new byte is then in that slot |
| `Heap.FirstUnusedLowHalfSlot` | src/kernel/src/memory/mod.rs:707-720 | the lowest unused lower-half slot, never slot 0 and never the user slot |
| `HeapGrowth.MapChunk` | src/kernel/src/memory/heap.rs:286-321 | once the frames have been counted the mapping loop cannot run out of them; when a page is refused, the pages are unmapped again exactly when the stack of returned frames has the room, told by its size at the start, the pages mapped and the frames the refused page took; frames are never lost |
| `HeapGrowth.Rollback` | src/kernel/src/memory/heap.rs:303-319 | succeeds exactly when every unmap finds room for four frames on the stack; frames given back and frames still mapped add up to those taken |
| `HeapGrowth.ShortChunksRecover` | src/kernel/src/memory/heap.rs:64-66 | a growth refused a little short of the largest chunk can be undone, whatever tables it crossed, unless the stack was all but full |
| `HeapGrowth.FullStackSticks` | src/kernel/src/memory/heap.rs:64-66 | with a full stack a growth refused after its first page cannot be undone, unless that page began a table |
| `HeapGrowth.LargestChunkSticks` | src/kernel/src/memory/heap.rs:64-66 | even with an empty stack a largest chunk across a gigabyte that is refused at its last page cannot be undone |
| `HeapGrowth.KernelHeap.Preflight` | src/kernel/src/memory/heap.rs:270-290 | where the next chunk goes and its size, the largest allowed by the chunk limit, the slot and the target, or the one reason against it: no range, or fewer frames than it takes |
| `HeapGrowth.KernelHeap.Grow` | src/kernel/src/memory/heap.rs:260-350 | exactly when growth succeeds: no room in a slot of its own or an unused one means no range, fewer frames than the largest allowed chunk takes means too little memory, and otherwise the heap grows by that chunk unless the mapper refuses a page; it never runs out of frames half way; success takes exactly the counted frames and stays in the slot; a failure that is rolled back changes nothing, any other poisons the heap and leaves its pages mapped; growth by fewer than 252 pages poisons only when more than 257 frames were on the stack |
| `HeapGrowth.KernelHeap.Initialize` | src/kernel/src/memory/heap.rs:246-258 | the same for the first chunk, and once only; the heap is initialized exactly after a success |
| `HeapGrowth.KernelHeap.Alloc` | src/kernel/src/memory/heap.rs:173-229 | the retry loop ends; a request that needed growth never grows the heap past its target; it gives up only at the target, when growth is impossible, or when the mapper refused a page |
| `HeapGrowth.StaysInSlot` | src/kernel/src/memory/heap.rs:142-170 | every byte of the heap is in the slot it started in |
| `Ustar.ParseOctal` | src/kernel/src/fs/mod.rs:39-54 | the number that the digits after the leading blanks write in base eight, when a blank or the end follows them, else none; a header field never overflows |
| `Ustar.SafeParent` | src/kernel/src/fs/mod.rs:56-70 | every directory on the way to a safe path is a safe path |
| `Ustar.ReadEntry` | src/kernel/src/fs/mod.rs:80-177 | the entry the header describes, or none at a zero block, or an error, check by check; `UstarWriter.ItemBack` says which bytes are read as what |
| `UstarTree.Validate` | src/kernel/src/fs/mod.rs:179-222 | accepts exactly the archives whose whole chain is readable, has at most 256 entries, is a tree without duplicates, and ends in zeros |
| `UstarTree.ZeroArchive` | src/kernel/src/fs/mod.rs:179-222 | the archive of zeros is accepted, with no entries |
| `UstarTree.DirectoryExists` | src/kernel/src/fs/mod.rs:260-282 | on an accepted archive never fails, and answers whether the path is the root, a directory entry, or above some entry, whatever the order of the entries |
| `UstarTree.ReadFile` | src/kernel/src/fs/mod.rs:357-370 | on an accepted archive never fails, and returns a file of that name if there is one; `UstarWriter.FilesBack` says which bytes these are |
| `UstarTree.FoundOnce` | src/kernel/src/fs/mod.rs:357-370 | there is only one such answer |
| `UstarTree.FlagIsRight` | src/kernel/src/fs/mod.rs:284-306 | the flag the first entry gives a child is what `directory_exists` answers for it |
| `UstarTree.ForEachEntry` | src/kernel/src/fs/mod.rs:308-342 | on an accepted archive never fails, and visits every immediate child exactly once, flagged as `directory_exists` would answer, files with their size |
| `UstarTree.EveryChildListed` | src/kernel/src/fs/mod.rs:308-342 | whatever lies at or below a child, the child is visited |
| `UstarWriter.ChecksumIs` | src/kernel/src/fs/mod.rs:91-102 | the sum over a header is that of all its bytes with blanks in the checksum field |
| `UstarWriter.HeaderGood` | src/kernel/src/fs/mod.rs:91-151 | a header laid out field by field, whatever is in the fields nobody reads, is accepted with the kind and the size it was written with |
| `UstarWriter.NamesBack` | src/kernel/src/fs/mod.rs:112-146 | the full name of such a header is the one written, from one name field or both, without the slash a directory may end in |
| `UstarWriter.ItemBack` | src/kernel/src/fs/mod.rs:80-177 | wherever an item stands in an archive, it is read back with its name, kind and data, and the next one is looked for right behind its last block |
| `UstarWriter.RoundTrip` | src/kernel/src/fs/mod.rs:179-222 | an archive laid out from any list of items that fit is read back as the same names, kinds and data in the same order, and is accepted exactly when it makes a tree within the limits of number and size |
| `UstarWriter.FilesBack` | src/kernel/src/fs/mod.rs:357-370 | looking up a file there gives the data it was written with, and a name not written as a file gives nothing |
| `UstarWriter.DamageRefused` | src/kernel/src/fs/mod.rs:91-105 | an accepted header with one byte changed outside the checksum field is refused |

## Left out

- Ext2Operations.RemoveFile: states nothing about the disk after a fault of the device, because removal has no rollback.
- Ext2Operations.RemoveEmptyDirectory: states nothing about the disk after a fault of the device, because removal has no rollback.
- Ext2Mkdir.CreateDirectory: states nothing about the disk after a fault of the device, because `create_directory` has no rollback.
- Ext2Runs.Run: ends at the first failed removal or directory creation, and at a failed recovery, and states nothing after a fault of the device, for the same reason.
- Descriptors.Descriptors.Close: does not model the wake-up of blocked tasks, which the other ways of dropping a descriptor do not perform either.
- Descriptors.Descriptors.Read: takes what the keyboard and files give as a parameter.
- HeapGrowth.KernelHeap.Alloc: does not say which allocation succeeds, because the free-list allocator is foreign code.
- Frames.ValidateMemoryMap: takes the descriptors as already cut out of the memory map; the byte layout of a descriptor is not modelled.
- Crash consistency of ext2: the claims are about reported errors, not about power loss.
- Mounting ext2 and parsing its superblock; the console, keyboard, timer, disk and framebuffer drivers.
- Register contexts, kernel stacks, address spaces and privilege switches: a context switch is the choice of `current`.
- Release of the address space when a spawn fails after taking it, and liveness of pipe wake-ups: the code does not promise them.
- The check in the frame allocator's constructor that no reserved range overlaps conventional memory: the model allows such overlaps, as `available_frame_count` does.
- Descriptors for files: they carry no counts, and stand for both kinds at once.
- User address spaces, `map_user_page` and copying to and from user memory.
- The shell, the user programs and the application format: they share no state with the kernel and talk to it only through system calls.
