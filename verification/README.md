# HouseOS: a verified model

HouseOS is a small i386 kernel with its own userland. This project models the parts of it that
carry state, arithmetic or round trips, and proves what they promise, with Dafny 4.11.
`dafny verify dfyconfig.toml` checks the whole project.

| part | files |
|---|---|
| FAT32 driver | `Fat32Chains`, `Fat32Volume`, `Fat32Dirs`, `Fat32State`, `Fat32Files`, `Fat32Bytes`, `Fat32Crash`, `Fat32Steps`, `Fat32Append`, `Fat32Atomic`, `Fat32Names`, `Fat32Lookup`, `Fat32Remove`, `Fat32Layout`, `Fat32Driver`, and what follows from them in `Fat32Meaning`, `Fat32Paths`, `Fat32Facts` |
| offset reads, writes and seeks over whole files | `ByteFiles`, `OffsetFiles` |
| kernel heap | `HeapTiles`, `Heap` |
| scheduler and task table | `TaskModel`, `TaskRuns`, `TaskFields`, `Tasks` |
| program start-up | `Argv`, `ArgvWords`, `Startup`, `ProgramStack`, `Interpreter` |
| dynamic linker | `Libraries`, `Relocate` |
| mounts, paths, sockets, memory file system | `Mounts`, `Paths`, `UdpModel`, `Udp`, `MemFsModel`, `MemFs` |
| line drawing | `Line` |
| bytes and 32-bit numbers | `Bytes`, `Words` |

Code that updates state in place is a class whose methods have loops and invariants
(`Driver`, `Disk`, `OpenFile`, `Allocator`, `TaskTable`, `Linker`, `Loader`, `MountTable`, `Sockets`,
`MemoryFs`). Each method is tied to a function or a relation on the abstract state, and the lemmas
are about those. What these functions compute is pinned by laws that do not mention them: on the bytes
of directory entries, tables and relocations, on the fields of tasks, on runs of calls, and by
methods that make several calls and say what comes out (`WriteAppendRead`, `Answered`, `LinkShares`).

**FAT32.** A volume is the copies of the allocation table and the clusters, sector by sector. Every
sector write appends the resulting image to a ghost trace, so that a crash after any prefix of the
writes is an image in the trace. The invariant `Inv` ties the volume to ghost bookkeeping (chains,
owners, the entry that refers to each chain); `Fat32Meaning` restates it in terms of following
links only. All operations keep it, with the one exception below. `WriteFile` gives a position in
its trace such that in every image before it every path leads to the same entry and reads as in the
old volume, and in every image from it on too, but that the one file reads as the new bytes.
`AppendFile` gives the same, though it writes in place: until the size is rewritten, in the last
write, the old file is read. Create, mkdir, unlink and rmdir are atomic as well (`Atomic`): each
image reads as the volume before or, from one write on, as the volume after.
The driver carries the sectors of the disk along as ghost state: every write changes one of them,
they always show the volume, which is the last image of the trace, and the upper four bits of all
table entries, in all copies, are those of the beginning (`Fat32Layout.Holds`). `NewDriver` starts one
on a disk of any geometry. `Fat32Bytes` says on the bytes of an entry and of the disk what is stored:
`Stores` follows the links from the cluster in bytes 26, 27, 20 and 21 of the entry, for as many bytes
as bytes 28 to 31 say. `RunCalls` takes crash atomicity and content up to the system calls: a run of
reads, writes and seeks on a descriptor does what `ByteFiles.Run` does to a byte array.

**Facts about the code that shape the statements.**
- A short name that ends in a dot is stored without the dot, but the lookup before a create uses the
  dotted name. So create keeps names unique if and only if the directory has no entry with the
  stripped name (`MadeUnique`); `DottedTwin` is a run that ends with two entries of the same name.
- `rmdir` by a path that ends in "." frees an empty directory but deletes its "." entry instead of
  its own: no bookkeeping fits the volume afterwards (`DotRemoval`; `DotRemoved` is a run).
  `RemoveDir` keeps the invariant if and only if it does not succeed in this way.
- `fat32_resolve` does not check that the entries it passes are directories. A path through an empty
  file goes on in the root directory (`ThroughEmptyFile`), until the file is written to: with a zero
  byte in the file that it passes first a path resolves to nothing (`WriteCutsPath`). Every path that
  does not lead through directories passes such a file (`PassesFile`). So the paths that lead through
  directories (`ThroughDirs`), which the statements are about, are the ones that no write cuts.
- The whole-file operations return their size as a signed 32-bit number: for 2^31 bytes and more
  SYS_WRITE reports EIO although the file has been replaced (`WriteCall`, `LeftBy`).
- `krealloc` shrinks without merging; `ShrunkCoalesced` says exactly when that leaves two free
  blocks side by side, and `ShrinkLeavesNeighbours` gives such a heap.
- `krealloc` does not check that the block is in use. A free one is cut as well, and the rest is taken
  off the bytes in use, which then are wrong; `KRealloc` says exactly when.
- `align_size` wraps to 0 above 2^32 - 8; `PayloadLargeEnough` says that the payload is large enough
  exactly when it does not wrap.
- The shell's quoting drops empty arguments; `ShellRoundTrip` says exactly what arrives.
- The command line of a program with an interpreter is rewritten: its first word is dropped only if it
  stands there unquoted. The shell writes it so, execve does not, and the program then gets its path
  followed by all of its arguments, the first included (`FirstIsDropped`). Neither path is quoted, so one
  with a blank arrives in pieces (`BlankSplits`).
- `normalize_path` may leave doubled or trailing slashes; `Normalize` is stated on components.
- The linker records sixteen needs of an object; `ClosedForAll` says exactly when the loaded set is
  closed under all of them, and `SeventeenthIsLost` runs the loader on a library for which it is not.
- The linker's 256 bytes of slack do not cover 63 arguments: `LayoutApart` says exactly when the
  stack stays in the user area, and `SlackTooSmall` gives arguments of some megabytes with which it does not.
  The kernel hands the linker at most 32 arguments of less than 128 bytes, so this never happens (`Restack`).
- `memfs_link` also links directories. All counts stay right, but the directories form a tree
  afterwards if and only if they did before and the node is no directory (`AddLinkKeeps`). A linked
  directory leads back to itself if and only if the link is in it or somewhere below it (`DirLinkLoops`).

## Model

| member | source | states |
|---|---|---|
| `Fat32Driver.Driver.WriteFile` | kernel/drivers/filesystem/fat32.c:786-866 | crash atomicity: one sector write splits the trace; in every image before it every path leads and reads as in the old volume, from it on as in the old volume with exactly this file replaced; -1 iff the path is no file or too few clusters are free, and then all FAT copies are as before; else the signed 32-bit size; the invariant is kept; on the bytes: the entry then leads to exactly the new bytes, its other fields and all other entries are as before |
| `Fat32Crash.BeforeSwitch` | kernel/drivers/filesystem/fat32.c:804-850 | in an image that keeps every allocated cluster every path leads to the same entry and reads as in the old volume |
| `Fat32Crash.SecondHalfReads` | kernel/drivers/filesystem/fat32.c:852-865 | once the entry is switched, every path leads to the same entry and reads as before, except those that name the entry, which read as the new bytes |
| `Fat32Atomic.PendingReads` | kernel/drivers/filesystem/fat32.c:899-967 | while an append fills, allocates and links clusters, every path leads and reads as in the old volume |
| `Fat32Atomic.StretchReads` | kernel/drivers/filesystem/fat32.c:493-510 | a directory whose chain has got a blank cluster reads as it did |
| `Fat32Atomic.StretchStill` | kernel/drivers/filesystem/fat32.c:493-510 | so does every image while that cluster is allocated, zeroed and linked |
| `Fat32Atomic.RemovalSwitches` | kernel/drivers/filesystem/fat32.c:1043-1073 | once the entry is erased, every image while the chain is freed reads as the volume after the removal |
| `Fat32Driver.Driver.BuildChain` | kernel/drivers/filesystem/fat32.c:804-820 | the new chain is made of clusters that were free; it fails iff fewer are free than needed, and then the FAT copies are restored |
| `Fat32Driver.Driver.AppendFile` | kernel/drivers/filesystem/fat32.c:868-968 | appending k bytes leaves exactly the old content followed by the first k bytes, all paths and other files unchanged, and returns k as a signed number; fewer than all bytes are written only when no free cluster is left; -1 iff the path is no file, or an empty one that is short of clusters; crash atomicity: up to one sector write every image reads as the old volume, from it on with the new content of this file; on the bytes: the entry leads to what it led to with the appended bytes behind, its other fields and all other entries are as before |
| `Fat32Facts.WriteAppendRead` | kernel/drivers/filesystem/fat32.c:750-968 | writing, appending and reading a file gives the written and the appended bytes; fails iff there is no file or no room |
| `Fat32Driver.Driver.ReadFile` | kernel/drivers/filesystem/fat32.c:750-784 | the bytes read are the file's content, cut to the buffer, and their number is returned as a signed 32-bit number; -1 and no bytes for a path that names no file |
| `Fat32Bytes.PathStores` | kernel/drivers/filesystem/fat32.c:750-784 | in a sound volume, reading a path gives the bytes in the clusters that the links lead to from the number in bytes 26, 27, 20, 21 of the entry, as many as bytes 28 to 31 say; the last cluster ends the chain |
| `Fat32Bytes.ContentAt` | kernel/drivers/filesystem/fat32.c:750-784 | in any image, crash images included, byte i of sector s of the j-th cluster is where a read takes it from |
| `Fat32Bytes.StoresOne` | kernel/drivers/filesystem/fat32.c:750-784 | an entry stands for one file content only |
| `Fat32Driver.Driver.CreateFile` | kernel/drivers/filesystem/fat32.c:1015-1034 | a new entry appears at a free slot, all other entries and all file clusters stay; 0 without change if the name is found; -1 iff there is no parent, no short name, or neither the name nor a slot and a cluster for one; every crash image reads as the volume before or after, switching once; every byte of the new entry is given |
| `Fat32Driver.Driver.MakeDir` | kernel/drivers/filesystem/fat32.c:978-1013 | a new directory with correct "." and ".." entries, all other entries and files unchanged; -1 iff there is no parent, no short name, the name is there, or a cluster is missing, one or two being needed; on failure no live entry has changed; every crash image reads as the volume before or after, switching once; every byte of the new entries is given |
| `Fat32Driver.Driver.Unlink` | kernel/drivers/filesystem/fat32.c:1043-1054 | succeeds iff the path names a file; then its entry is gone, its chain is free and nothing else has changed; every crash image reads as the volume before or after, switching once; the entry's first byte becomes 0xE5 and its others stay |
| `Fat32Driver.Driver.RemoveDir` | kernel/drivers/filesystem/fat32.c:1056-1073 | succeeds iff the path leads to a directory without entries other than "." and ".."; then it is gone and nothing else has changed, and every crash image reads as the volume before or after, unless the path led there by the directory's own "." entry, which leaves no sound volume; the entry's first byte becomes 0xE5 and its others stay |
| `Fat32Remove.DotRemoval` | kernel/drivers/filesystem/fat32.c:1056-1073 | deleting the "." entry instead of the directory's own leaves a volume that no bookkeeping fits |
| `Fat32Driver.Driver.IsEmpty` | kernel/drivers/filesystem/fat32.c:565-593 | stopping at the first never-used slot misses no entry |
| `Fat32Bytes.EmptyIs` | kernel/drivers/filesystem/fat32.c:565-593 | which slots an empty directory has, on their bytes |
| `Fat32Driver.Driver.FindFreeSlot` | kernel/drivers/filesystem/fat32.c:467-511 | a slot that is free and may be taken without leaving a gap; the directory is stretched by a zeroed cluster iff all its slots are live, and it fails iff there is none to be had then |
| `Fat32Driver.Driver.FindName` | kernel/drivers/filesystem/fat32.c:285-364 | the lookup through sectors and chain links is the declarative lookup |
| `Fat32Bytes.CaseIgnored` | kernel/drivers/filesystem/fat32.c:113-121 | a lookup finds an entry by another name iff the names differ at most in the case of letters |
| `Fat32Bytes.FoundIsLive` | kernel/drivers/filesystem/fat32.c:300-318 | a lookup never finds an unused or deleted slot, a label or a long name |
| `Fat32Dirs.NotFoundMeansAbsent` | kernel/drivers/filesystem/fat32.c:285-364 | in a tidy directory a failed lookup means that no slot carries the name |
| `Fat32Driver.Driver.Lookup` | kernel/drivers/filesystem/fat32.c:366-406 | walking a path, with dot entries, gives the declarative resolution, at an entry that leads to a directory or is that of a file of the invariant |
| `Fat32Driver.Driver.Parent` | kernel/drivers/filesystem/fat32.c:408-439 | the directory that holds the last component |
| `Fat32Driver.Driver.AllocCluster` | kernel/drivers/filesystem/fat32.c:227-243 | the lowest free cluster, marked end-of-chain in all copies and zeroed; fails iff none is free |
| `Fat32Driver.Driver.FreeChain` | kernel/drivers/filesystem/fat32.c:245-262 | exactly the clusters of the chain become free, in all copies, whatever the guard |
| `Fat32Driver.Driver.ChainLast` | kernel/drivers/filesystem/fat32.c:264-283 | the last cluster and the length of the chain |
| `Fat32State.Rechain` | kernel/drivers/filesystem/fat32.c:852-863 | giving a file entry a new extent keeps the invariant |
| `Fat32State.Grow` | kernel/drivers/filesystem/fat32.c:1000-1012 | a new entry, with its directory for mkdir, keeps the invariant |
| `Fat32State.Prune` | kernel/drivers/filesystem/fat32.c:1043-1073 | deleting an entry and freeing its chain keeps the invariant, for a directory if it is empty; in particular no ".." entry is left dangling |
| `Fat32State.Stretch` | kernel/drivers/filesystem/fat32.c:493-510 | linking a zeroed cluster behind a directory keeps the invariant |
| `Fat32Layout.Disk.FatSet` | kernel/drivers/filesystem/fat32.c:182-212 | on the sectors: every copy gets the link, every other entry and every upper four bits stay |
| `Fat32Layout.Disk.FatGet` | kernel/drivers/filesystem/fat32.c:163-180 | the lower 28 bits of the entry |
| `Fat32Bytes.LinkOnDisk` | kernel/drivers/filesystem/fat32.c:163-180 | the link of cluster c is the lower 28 bits of the four bytes at 4 * c of a copy of the table |
| `Fat32Bytes.DataOnDisk` | kernel/drivers/filesystem/fat32.c:84-86 | where the bytes of a cluster are on the disk |
| `Fat32Layout.SetEntryShows` | kernel/drivers/filesystem/fat32.c:196-210 | rewriting one sector of one copy is one step of the abstract volume |
| `Fat32Layout.PutFatHolds` | kernel/drivers/filesystem/fat32.c:182-212 | every table write of every operation is the write of one sector, and leaves the upper four bits of all entries of all copies as they were at first |
| `Fat32Layout.SetDataShows` | kernel/drivers/filesystem/fat32.c:72-86 | writing one cluster sector is one step of the abstract volume |
| `Fat32Layout.PutSectorHolds` | kernel/drivers/filesystem/fat32.c:72-86 | the same for the data sectors of every operation |
| `Fat32Facts.FormattedOnDisk` | kernel/drivers/filesystem/fat32.c:72-86 | every layout has sectors that hold the formatted volume, so that the driver has disks to start from |
| `Fat32Meaning.ChainsEnd` | kernel/drivers/filesystem/fat32.c:245-283 | following the links from a live entry ends at an end-of-chain mark, without a cycle |
| `Fat32Meaning.ChainsDisjoint` | kernel/drivers/filesystem/fat32.c:786-1073 | the chains of two live entries share no cluster, nor with the root directory |
| `Fat32Meaning.SizeMatches` | kernel/drivers/filesystem/fat32.c:786-968 | a file of n > 0 bytes has exactly n / cluster size clusters, rounded up; an empty one none |
| `Fat32Meaning.UsedAreCovered` | kernel/drivers/filesystem/fat32.c:227-283 | the clusters in use are exactly those of the root and of the live entries |
| `Fat32Names.DecodeEncode` | kernel/drivers/filesystem/fat32.c:123-138 | decoding an encoded name gives the lower-cased name, less a dot that ends it |
| `Fat32Names.EncodedBytes` | kernel/drivers/filesystem/fat32.c:548-553 | the eleven bytes: capital letters of the part before the dot, spaces up to byte 8, those of the part behind it, spaces |
| `Fat32Names.AcceptedNames` | kernel/drivers/filesystem/fat32.c:512-546 | exactly the names of one to eight letters, digits or signs, and at most three more behind a dot |
| `Fat32Names.MakeShortName` | kernel/drivers/filesystem/fat32.c:521-554 | which names are accepted, and their 11 bytes |
| `Fat32Names.TrailingDotIsLost` | kernel/drivers/filesystem/fat32.c:521-554 | a dotted name and the name without the dot are stored alike but do not compare equal |
| `Fat32Facts.DottedTwin` | kernel/drivers/filesystem/fat32.c:1015-1034 | creating a name and then the dotted name on an empty volume leaves two entries with one name |
| `Fat32Facts.ThroughEmptyFile` | kernel/drivers/filesystem/fat32.c:366-406 | a path that passes an empty file goes on from there in the root directory |
| `Fat32Facts.PassesFile` | kernel/drivers/filesystem/fat32.c:366-406 | a path that does not lead through directories has a beginning that names a file |
| `Fat32Facts.WriteCutsPath` | kernel/drivers/filesystem/fat32.c:366-406 | any path whose beginning names a file resolves to nothing once that file has been written with a zero byte |
| `Fat32Facts.DotRemoved` | kernel/drivers/filesystem/fat32.c:1056-1073 | mkdir of a name and rmdir of the name followed by "." on an empty volume succeed and leave no sound volume |
| `Fat32Lookup.FindUnique` | kernel/drivers/filesystem/fat32.c:285-364 | with unique names a lookup finds the entry that has the name, wherever it is |
| `Fat32Lookup.MadeUnique` | kernel/drivers/filesystem/fat32.c:978-1034 | create and mkdir keep names unique in all directories iff the parent has no entry with the stripped name |
| `Fat32Lookup.EnteredLookups` | kernel/drivers/filesystem/fat32.c:1015-1034 | then the new name is found and every other name is found as before |
| `Fat32Lookup.KeptNamesUnique` | kernel/drivers/filesystem/fat32.c:786-968 | write and append keep names unique |
| `Fat32Remove.RemovedLookup` | kernel/drivers/filesystem/fat32.c:1043-1073 | after a removal the name is not found, other lookups and uniqueness are as before |
| `Fat32Paths.CreatedResolves` | kernel/drivers/filesystem/fat32.c:1015-1034 | a created path resolves to the new entry |
| `Fat32Paths.EnteredPaths` | kernel/drivers/filesystem/fat32.c:978-1034 | every path that resolved before resolves to the same entry after |
| `Fat32Paths.RemovedPaths` | kernel/drivers/filesystem/fat32.c:1043-1073 | a path to the removed entry resolves to nothing, others that do not pass it as before |
| `OffsetFiles.OpenFile.SysWrite` | kernel/drivers/syscall.c:1100-1136 | the file gets the data laid over it at the offset (or end), holes zero-filled; every crash image shows the old file or the whole new one; exactly when it fails with EIO or ENOMEM, and the new offset |
| `OffsetFiles.OpenFile.RunCalls` | kernel/drivers/syscall.c:1059-1137 | any sequence of writes, reads and seeks on a descriptor gives the results, the offset and the content that it gives on a byte array, up to the first call refused for want of memory or space; all other files are as they were |
| `OffsetFiles.OpenFile.SysRead` | kernel/drivers/syscall.c:1059-1088 | the bytes from the offset on, and the new offset; exactly when it fails |
| `OffsetFiles.OpenFile.SysSeek` | kernel/drivers/syscall.c:1374-1393 | the new position of the descriptor in 32-bit arithmetic, or EIO, ENOTSUP or EINVAL without change |
| `ByteFiles.WritesJoin` | kernel/drivers/syscall.c:1108-1131 | a run of two writes leaves what one write of both leaves |
| `ByteFiles.WritesCommute` | kernel/drivers/syscall.c:1108-1131 | runs that seek and write at different places can be exchanged |
| `ByteFiles.AppendsAtEnd` | kernel/drivers/syscall.c:1105-1131 | an appending write leaves the old bytes followed by the new, wherever the position was |
| `ByteFiles.HolesAreZero` | kernel/drivers/syscall.c:1108-1131 | a write beyond the end leaves a hole of zeros |
| `ByteFiles.WriteKeepsRest` | kernel/drivers/syscall.c:1105-1131 | a write changes no byte before its place or behind its data, returns their number and moves behind them |
| `ByteFiles.ReadsBack` | kernel/drivers/syscall.c:1059-1137 | a run that writes, seeks back and reads gives what was written |
| `ByteFiles.ReadMovesOn` | kernel/drivers/syscall.c:1068-1085 | a read hands over the bytes from the position on, as many as asked for and there, and moves on by their number |
| `ByteFiles.ReadAtEnd` | kernel/drivers/syscall.c:1071 | at the end or behind it a read hands over nothing and stays |
| `ByteFiles.ReadsJoin` | kernel/drivers/syscall.c:1059-1088 | two reads hand over what one read of both lengths does |
| `ByteFiles.ReadLoop` | kernel/drivers/syscall.c:1059-1088 | a loop of reads gets the whole file |
| `ByteFiles.SeeksFrom` | kernel/drivers/syscall.c:1374-1393 | SEEK_SET, SEEK_CUR and SEEK_END count from the beginning, the position and the end; negative positions and other origins are refused |
| `ByteFiles.SeeksWrap` | kernel/drivers/syscall.c:1374-1393 | where a seek leads without bounds on its numbers: right modulo 2^32, or refused, and when |
| `Heap.Allocator.KMalloc` | kernel/arch/i386/mm.c:271-285 | first fit on the tiling; headers, sorted doubly linked list and accounting are kept, and so is coalescing |
| `Heap.Allocator.KFree` | kernel/arch/i386/mm.c:329-352 | for every pointer: the payload of a live block is freed and merged on both sides; NULL, an address behind no header and a free block, also one that has been merged away, change nothing; coalescing is kept |
| `Heap.Allocator.KRealloc` | kernel/arch/i386/mm.c:296-327 | shrinks in place, moves, frees or fails, in each case with the exact new tiling and the exact new bytes, for live and free blocks; the heap invariant is kept iff no free block is cut, and else only the bytes in use are off, by the size of the rest |
| `Heap.ReallocKeeps` | kernel/arch/i386/mm.c:296-327 | whatever krealloc returns is a live block of at least the size asked for that begins with the old bytes |
| `Heap.StaysOrFails` | kernel/arch/i386/mm.c:311-322 | when krealloc stays in place, and that it fails only if no free block is large enough |
| `HeapTiles.MovedBytes` | kernel/arch/i386/mm.c:321-326 | the moved block begins with the bytes of the old one, and every other live payload is as it was |
| `Heap.Allocator.Find` | kernel/arch/i386/mm.c:43-51 | the list walk finds the first free block of the tiling that fits |
| `Heap.Allocator.Insert` | kernel/arch/i386/mm.c:53-79 | the list stays doubly linked and sorted with the block in its place |
| `Heap.Allocator.Unlink` | kernel/arch/i386/mm.c:81-94 | the list without the block, forwards and backwards |
| `Heap.Allocator.Cut` | kernel/arch/i386/mm.c:96-116 | the rest of the block becomes a listed free block iff it can hold a header and 16 bytes |
| `HeapTiles.CutOff` | kernel/arch/i386/mm.c:96-116 | the rest of a block becomes a block iff it has 36 bytes or more |
| `Heap.Allocator.Merge` | kernel/arch/i386/mm.c:118-137 | neighbours in the list are merged exactly when they are neighbours in memory |
| `HeapTiles.BlocksDisjoint` | kernel/arch/i386/mm.c:96-137 | no byte of the heap lies in two blocks |
| `HeapTiles.Accounts` | kernel/arch/i386/mm.c:271-352 | used and free bytes add up to the heap |
| `HeapTiles.FreeUndoesAlloc` | kernel/arch/i386/mm.c:271-352 | freeing what was just allocated restores the tiling |
| `HeapTiles.PlacedLive` | kernel/arch/i386/mm.c:271-285 | allocation adds one live block and leaves all others as they are |
| `HeapTiles.FreedLive` | kernel/arch/i386/mm.c:329-352 | freeing removes one live block and leaves all others as they are |
| `HeapTiles.PlacedCoalesced` | kernel/arch/i386/mm.c:271-285 | no two free blocks become neighbours |
| `HeapTiles.FreedCoalesced` | kernel/arch/i386/mm.c:118-137 | no two free blocks are neighbours after a free |
| `HeapTiles.AllFreeIsOneBlock` | kernel/arch/i386/mm.c:329-352 | when everything is freed the heap is the one initial block |
| `HeapTiles.NoFitMeansNoRoom` | kernel/arch/i386/mm.c:43-51 | allocation fails only if no free stretch holds a header and the payload |
| `HeapTiles.ShrunkCoalesced` | kernel/arch/i386/mm.c:313-319 | when a shrink leaves two free neighbours, exactly |
| `HeapTiles.PayloadLargeEnough` | kernel/arch/i386/mm.c:26-28 | the payload is as large as asked iff the size does not wrap |
| `Line.DrawLine` | kernel/drivers/vesa.c:301-325 | with the error term kept in 32 bits: terminates; max(dx, dy) + 1 points from one end to the other, one step along the long axis each, each at most half a step off the line |
| `Line.Turn` | kernel/drivers/vesa.c:312-324 | one turn keeps the point close to the line |
| `Line.Nearest` | kernel/drivers/vesa.c:301-325 | no other pixel of the column (row) is closer to the line |
| `TaskModel.PickIs` | kernel/arch/i386/task.c:198-218 | the ready task next in the ring is picked, idle only if no other is ready |
| `TaskModel.ScheduleKeeps` | kernel/arch/i386/task.c:198-235 | after schedule() the current task is the only one running, and everything else stays |
| `TaskModel.ScheduleAdvances` | kernel/arch/i386/task.c:198-235 | a waiting task comes strictly closer with every schedule() |
| `TaskFields.ScheduleChanges` | kernel/arch/i386/task.c:198-235 | which fields of which tasks schedule() changes: the picked task is running, the one that was running is ready, all others, sleepers and ended ones among them, are as they were |
| `TaskFields.ExitEnds` | kernel/drivers/syscall.c:1052-1058 | the task that exits has ended with its code and without a signal, another runs, and no other task has changed |
| `TaskFields.KillEnds` | kernel/arch/i386/task.c:251-265 | the task with the pid has ended with the code and signal given, unless it had before; -1 without change iff there is none or it is the idle task |
| `TaskFields.EndedStep` | kernel/arch/i386/task.c:191-301 | an event leaves an ended task as it is, unless waitpid takes it or create uses its place |
| `TaskFields.EndedForGood` | kernel/arch/i386/task.c:191-301 | over every run an ended task never runs again: any task of its pid is that task, with its exit code and signal |
| `TaskRuns.BoundedWaiting` | kernel/arch/i386/task.c:117-235 | over every run with creations, kills, sleeps, ticks and waits, a task that stays ready sees at most MAX_TASKS - 2 calls of schedule() |
| `TaskRuns.RunKeeps` | kernel/arch/i386/task.c:44-301 | in every state of every run: one running task, one ring, sleepers before their deadlines, unique pids, every stack, page directory and user slot with exactly one owner |
| `TaskRuns.SleepersWakeOnTime` | kernel/arch/i386/timer.c:12-46 | a sleeper is not ready before its deadline and is ready at the tick that reaches it |
| `TaskFields.SleepLength` | kernel/arch/i386/timer.c:34-46 | sleep(ms) takes ms / 10 ticks, at least one |
| `TaskFields.SleepSets` | kernel/arch/i386/timer.c:34-46 | the caller sleeps until then and nothing else changes |
| `TaskFields.TickWakes` | kernel/arch/i386/timer.c:12-21 | a tick wakes the sleepers whose time has come, and no others |
| `TaskRuns.WaitIsNew` | kernel/arch/i386/task.c:267-301 | waitpid returns a terminated child of the caller with its status, and one that was not returned before |
| `TaskRuns.ReturnedOnce` | kernel/arch/i386/task.c:267-301 | over every run waitpid returns each pid at most once |
| `TaskFields.WaitTakes` | kernel/arch/i386/task.c:267-301 | which child is taken and with which status, when the result is 0 and when -1, and what changes |
| `TaskFields.StatusReads` | programs/include/sys/wait.h:11-14 | the status word gives back the exit code as a byte, or the signal |
| `TaskFields.ChildStatus` | kernel/arch/i386/task.c:117-301 | a child that is created, killed and waited for comes back with its status |
| `TaskModel.ReleaseOwned` | kernel/arch/i386/task.c:44-59 | releasing a task's resources takes them from no other task |
| `TaskModel.CreateKeeps` | kernel/arch/i386/task.c:117-180 | creation in a recycled or a new slot keeps the invariant |
| `TaskFields.CreateMakes` | kernel/arch/i386/task.c:117-180 | the fields of a new task, the parent's pid among them; no other task changes but for its link; when it fails |
| `Tasks.TaskTable.Schedule` | kernel/arch/i386/task.c:198-235 | the walk around the ring computes the scheduling function |
| `Tasks.TaskTable.Create` | kernel/arch/i386/task.c:117-180 | the first terminated slot is recycled, else the ring grows, else -1 |
| `Tasks.TaskTable.Terminate` | kernel/arch/i386/task.c:251-265 | which task ends, with which status, on its fields, and when schedule() follows |
| `Tasks.TaskTable.Exit` | kernel/drivers/syscall.c:1052-1058 | the current task has ended with its code; no other task has changed |
| `Tasks.TaskTable.WaitScan` | kernel/arch/i386/task.c:267-301 | one scan: the first terminated child is reaped, 0 if there are only live ones, -1 if none |
| `Tasks.TaskTable.TimerTick` | kernel/arch/i386/timer.c:12-21 | all due sleepers are woken, then schedule() |
| `Tasks.TaskTable.SleepFor` | kernel/arch/i386/timer.c:34-46 | the deadline in 32-bit arithmetic, at least one tick ahead |
| `Tasks.TaskTable.EnsureUserSpace` | kernel/drivers/syscall.c:548-572 | the lowest free user slot and a page directory, or nothing |
| `TaskFields.AttachGives` | kernel/drivers/syscall.c:548-572 | the lowest free slot and the directory, on the fields, and when there is none |
| `Argv.ExecRoundTrip` | programs/stdlib/posix_extra.c:31-44 | tokenizing what execve quotes gives the arguments back; refused iff they exceed the limits |
| `Argv.ShellRoundTrip` | programs/shell/main.c:230-263 | tokenizing what the shell quotes gives the non-empty arguments back, all of them iff none is empty; refused iff they exceed the limits |
| `ArgvWords.TokensOfWords` | kernel/drivers/syscall.c:424-463 | the tokens of any line of words with plain and escaped characters and pieces in single or double quotes, with blanks of any kind between them |
| `ArgvWords.OpenQuote` | kernel/drivers/syscall.c:457-460 | a quote that is not closed makes the line malformed |
| `Argv.QuoteIs` | programs/shell/main.c:230-251 | the shell quotes a word iff it has a blank, a quote or a backslash |
| `Startup.BuildCmdLine` | programs/shell/main.c:230-263 | the joined quoted line, or failure iff the buffer is too small |
| `Startup.AppendInQuotes` | programs/stdlib/posix_extra.c:31-44 | the quoted and escaped argument, or failure iff the buffer is too small |
| `Startup.Tokenize` | kernel/drivers/syscall.c:424-463 | the loops compute the token function |
| `ProgramStack.BuildStack` | kernel/drivers/syscall.c:465-492 | argc, pointers, NULL and strings in place; fails iff the strings leave less than the slack |
| `ProgramStack.HasRoomIs` | kernel/drivers/syscall.c:465-474 | how many bytes of strings there is room for |
| `ProgramStack.ImageReadsBack` | kernel/drivers/syscall.c:465-492 | reading argc, pointers and C strings from the image gives the arguments; a NULL follows the pointers |
| `ProgramStack.LayoutApart` | programs/ldso/main.c:630-659 | pointers below strings, strings apart; nothing below the user area iff strings and pointers fit it, as up to 62 arguments do |
| `ProgramStack.SlackTooSmall` | programs/ldso/main.c:630-659 | 63 arguments that pass the check and do not fit; more than the kernel hands over |
| `ProgramStack.StartProgram` | kernel/drivers/syscall.c:410-492 | end to end for a program without interpreter: succeeds iff the arguments, less the empty ones that the shell drops, are within the limits, and then these are on the stack |
| `Interpreter.BuildInterpLine` | kernel/drivers/syscall.c:586-656 | the rewritten line, or failure iff the buffer is too small |
| `Interpreter.InterpTokens` | kernel/drivers/syscall.c:631-656 | its tokens are the linker's path, the program's path and the arguments less the first word if that is dropped; malformed iff these exceed the limits |
| `Interpreter.FirstIsDropped` | kernel/drivers/syscall.c:640-650 | the first argument is dropped iff the shell wrote it and it is the program's path or the path's last component; execve's never is |
| `Interpreter.BlankSplits` | kernel/drivers/syscall.c:637-639 | of a program path with a blank the linker is handed the part before the blank |
| `Interpreter.BaseIs` | kernel/drivers/syscall.c:613-621 | the last component of a path has no slash and is what follows the last one |
| `Interpreter.Restack` | programs/ldso/main.c:630-711 | the linker rebuilds the stack over its own arguments: it never fails on what the kernel hands it, the program finds the arguments from the second on, and nothing below the new stack pointer is written |
| `Interpreter.StartInterpreted` | kernel/drivers/syscall.c:410-492 | end to end for a program with an interpreter: succeeds iff the rewritten line and its arguments are within the limits, and then the program finds its path and the arguments that are left |
| `Relocate.Meaning` | programs/ldso/main.c:517-566 | every relocated word is S+A, S+A-P, S or B+A over the word that was there at first |
| `Relocate.FormulaIs` | programs/ldso/main.c:542-560 | the word is congruent to S+A, S+A-P, S or B+A modulo 2^32, by the kind of relocation, with S the object's own definition or else the first in load order |
| `Relocate.ValueIs` | programs/ldso/main.c:488-515 | that symbol value, on the fields of the symbols, and that it is the only one |
| `Relocate.GoodIs` | programs/ldso/main.c:528-564 | which relocations can be carried out |
| `Relocate.RelBytes` | programs/ldso/main.c:94-97 | the fields of a relocation on its eight bytes |
| `Relocate.SymBytes` | programs/ldso/main.c:85-92 | the fields of a symbol on its sixteen bytes, and its name in the string table |
| `Relocate.OrderIndependent` | programs/ldso/main.c:605-616 | the order of the relocations does not matter |
| `Relocate.OthersStay` | programs/ldso/main.c:517-566 | bytes outside the places stay |
| `Relocate.GlobalIs` | programs/ldso/main.c:497-515 | a global symbol is the first definition in load order |
| `Relocate.Linker.RelocateAll` | programs/ldso/main.c:605-616 | with the tables in the memory that is relocated: succeeds iff every relocation that they list is of a supported kind and has a defined symbol if it needs one; then, places being apart, every word is what its kind calls for (S+A, S+A-P, S or B+A modulo 2^32), as the tables said at first and still say |
| `Relocate.StepShows` | programs/ldso/main.c:517-566 | a relocation off the tables changes no symbol, name or relocation that is read from them |
| `Libraries.Loader.LoadAllNeeded` | programs/ldso/main.c:568-603 | terminates; on success the loaded set is closed under the recorded needs and keeps the invariant; on failure some needed entry of it cannot be loaded |
| `Libraries.ClosedForAll` | programs/ldso/main.c:304-306 | then it is closed under all needs of a library iff those behind the sixteenth happen to be there |
| `Libraries.SeventeenthIsLost` | programs/ldso/main.c:304-306 | a run of the loader that succeeds while the seventeenth need of a library that it has loaded is missing |
| `Libraries.Loader.LoadShared` | programs/ldso/main.c:198-263 | fails iff the object is not there yet and cannot be loaded; else it is there once |
| `Libraries.LoadsIfFits` | programs/ldso/main.c:243-255 | a sound shared object is loaded iff there is a place for it and its pages fit below 0x7A0000 |
| `Libraries.AcceptsSound` | programs/ldso/main.c:211-241 | which files are sound shared objects |
| `Libraries.PathIs` | programs/ldso/main.c:579-594 | which path a needed name stands for |
| `Libraries.LoadedIsReachable` | programs/ldso/main.c:568-603 | everything loaded is reachable from the program |
| `Libraries.ImagesDisjoint` | programs/ldso/main.c:243-249 | images are page-aligned, disjoint and in the library area |
| `Libraries.SegInExtent` | programs/ldso/main.c:227-241 | every segment lies in the computed extent |
| `Libraries.ExtentTight` | programs/ldso/main.c:227-241 | and it begins and ends with a segment |
| `Libraries.SegInImage` | programs/ldso/main.c:243-273 | every segment is loaded within its object's image, and lies in the file |
| `Mounts.ResolvesByLongest` | kernel/drivers/filesystem/vfs.c:232-259 | the unique longest mount that the path is under decides |
| `Mounts.OrderIrrelevant` | kernel/drivers/filesystem/vfs.c:232-259 | the answer depends on the set of mounts only |
| `Mounts.UnderIs` | kernel/drivers/filesystem/vfs.c:24-32 | a path is under a mount iff it is the mount's path or goes on behind it with a slash |
| `Mounts.LocalRebuilds` | kernel/drivers/filesystem/vfs.c:34-53 | mount path and local path make up the path |
| `Mounts.LocalComponents` | kernel/drivers/filesystem/vfs.c:34-53 | the components of the path are those of the mount and then those of the local path |
| `Mounts.NormalizeIs` | kernel/drivers/filesystem/vfs.c:12-22 | what can be mounted on: absolute paths of less than 256 characters, without the slash at their end |
| `Mounts.UnmountUndoesMount` | kernel/drivers/filesystem/vfs.c:202-230 | unmounting the latest mount restores the table |
| `Mounts.CanUnmountIs` | kernel/drivers/filesystem/vfs.c:202-224 | a mount other than the root's can be unmounted iff no other mount is under it |
| `Mounts.MountShadows` | kernel/drivers/filesystem/vfs.c:159-186 | a mount takes over exactly the paths under it and under no longer mount; all others resolve as before |
| `Mounts.MountTable.Resolve` | kernel/drivers/filesystem/vfs.c:232-259 | the loop computes the resolution, with the local path cut at 255 characters |
| `Mounts.MountTable.MountAt` | kernel/drivers/filesystem/vfs.c:159-186 | when mounting succeeds, and the new table |
| `Mounts.MountTable.Unmount` | kernel/drivers/filesystem/vfs.c:202-230 | succeeds iff the mount is there, is not "/" and nothing is mounted below it |
| `Paths.Normalize` | programs/cmd/cmd_common.c:76-139 | the components of the result are the evaluation of "." and ".." over those of the path; in bounds; succeeds if there is room and at most 64 components |
| `Paths.EvalDots` | programs/cmd/cmd_common.c:113-121 | "." leads nowhere else, ".." takes back the component before it and is lost at the root |
| `Paths.EvalReal` | programs/cmd/cmd_common.c:106-132 | a path without dot components is its own evaluation |
| `Paths.EvalTwice` | programs/cmd/cmd_common.c:76-139 | normalizing again changes nothing |
| `Paths.PathToComponents` | programs/cmd/cmd_common.c:106-112 | a path has the components it was made of |
| `Paths.JoinComponents` | programs/shell/main.c:168-194 | the path is the working directory's components followed by the input's |
| `UdpModel.DestinationUnique` | kernel/drivers/syscall.c:267-274 | the socket found is the only one bound to the port |
| `UdpModel.InUseMeans` | kernel/drivers/syscall.c:276-284 | a port is in use iff another socket is bound to it |
| `UdpModel.SomePortFree` | kernel/drivers/syscall.c:286-301 | at most eight ports tried can be in use |
| `UdpModel.EnqueueAppends` | kernel/drivers/syscall.c:362-372 | the ring buffer grows by the packet at its end |
| `UdpModel.DequeueTakes` | kernel/drivers/syscall.c:390-407 | the oldest packet is taken, and it is in use |
| `Udp.Sockets.AutoBind` | kernel/drivers/syscall.c:286-301 | never fails, and picks an ephemeral port that is not in use |
| `Udp.Sockets.Bind` | kernel/drivers/syscall.c:319-334 | when it is refused, and that bound ports stay distinct |
| `Udp.Sockets.SendTo` | kernel/drivers/syscall.c:336-373 | an accepted packet is appended for exactly the socket bound to the port; EINVAL iff the request is bad, ENOENT iff no socket is bound to the port, EAGAIN iff its queue is full |
| `Udp.Sockets.RecvFrom` | kernel/drivers/syscall.c:375-408 | the oldest packet not yet taken is handed over once, in order; the EIO branch is unreachable |
| `Udp.Answered` | kernel/drivers/syscall.c:336-408 | a packet arrives as sent, and an answer to where it came from arrives at the sender, bound or not |
| `Udp.Sockets.SocketOf` | kernel/drivers/syscall.c:890-895 | a descriptor that owns a socket owns one that is in use |
| `Udp.Sockets.Open` | kernel/drivers/syscall.c:1712-1724 | a fresh socket with exactly one descriptor |
| `Udp.Sockets.Close` | kernel/drivers/syscall.c:1225-1245 | the descriptor and its socket are given up |
| `Udp.Sockets.DupTo` | kernel/drivers/syscall.c:816-858 | a socket is never duplicated, and one that is overwritten is freed |
| `MemFsModel.TreeMeans` | kernel/drivers/filesystem/memfs.c:93-127 | the link counts of directories are all 1 iff each directory has exactly one path |
| `MemFsModel.AddLinkKeeps` | kernel/drivers/filesystem/memfs.c:620-636 | a link keeps all counts and totals and every node reachable; it keeps the directories a tree iff it is not to a directory |
| `MemFsModel.AddNodeKeeps` | kernel/drivers/filesystem/memfs.c:34-44 | link counts, entry counts, unique names, node and byte totals after a create |
| `MemFsModel.DropKeeps` | kernel/drivers/filesystem/memfs.c:446-521 | the same after a delete, with the node freed at its last name |
| `MemFsModel.DropConnected` | kernel/drivers/filesystem/memfs.c:446-521 | a delete cuts no other node off: every node that is counted can still be reached from the root |
| `MemFsModel.DropChild` | kernel/drivers/filesystem/memfs.c:446-521 | a delete changes where one component leads and nothing else |
| `MemFs.MemoryFs.MkdirP` | kernel/drivers/filesystem/memfs.c:133-167 | missing directories are made, existing paths stay; on failure nothing has changed |
| `MemFs.MemoryFs.Create` | kernel/drivers/filesystem/memfs.c:278-411 | the path leads to a node of the kind; fails, without change, iff something on the way is no directory or the name is taken |
| `MemFs.MemoryFs.Link` | kernel/drivers/filesystem/memfs.c:620-636 | for every node, directories included: the new path leads to the old node; exactly when it fails, and then nothing has changed; the invariant is kept, and the directories are a tree afterwards iff they were and the node is none |
| `MemFsModel.DirLinkLoops` | kernel/drivers/filesystem/memfs.c:620-636 | a directory that gets one more name leads back to itself iff that name is in it or somewhere below it |
| `MemFs.MemoryFs.Delete` | kernel/drivers/filesystem/memfs.c:446-521 | when it succeeds, its effect on paths, and that no node but one without another name loses its bytes |
| `MemFs.CanDeleteIs` | kernel/drivers/filesystem/memfs.c:446-499 | what can be deleted by which call |
| `MemFs.MemoryFs.Write` | kernel/drivers/filesystem/memfs.c:534-562 | on the bytes: a write to a file leaves exactly the buffer, an append and a write to a stream the old bytes with the buffer behind; the result, -1 iff nothing there holds bytes or a file is left empty; no other node changes, and the byte total follows |
| `MemFs.MemoryFs.Read` | kernel/drivers/filesystem/memfs.c:564-584 | the first bytes of a file, which stays, or the oldest of a stream, which are removed |
| `MemFs.WriteAppendRead` | kernel/drivers/filesystem/memfs.c:534-661 | writing, appending and reading a file gives the written and the appended bytes |
| `MemFs.LinkShares` | kernel/drivers/filesystem/memfs.c:534-636 | what is written under one name of a file is read under another |
| `MemFs.CreateTwice` | kernel/drivers/filesystem/memfs.c:278-411 | a new file is empty, and creating it again leads to the same node |
| `MemFs.DeleteOne` | kernel/drivers/filesystem/memfs.c:446-481 | a deleted path leads nowhere, and all other names lead where they did |
| `MemFs.MemoryFs.ReadStream` | kernel/drivers/filesystem/memfs.c:234-254 | what has been read is always a prefix of what was written |

## Left out

- FAT long file names, volume labels and hidden entries: volumes hold short entries only, as unlink leaves long-name entries behind.
- Disk errors inside the FAT32 driver: sectors are reliable, except that the machine may stop between any two writes.
- Splitting path strings into components in FAT32 and memfs: paths are given as their components, so an empty last component does not occur.
- Fat32Driver.Driver.WriteFile: takes buffers whose size plus one cluster is at most 2^32, as the number of clusters wraps around above.
- Fat32Driver.Driver.AppendFile: takes sizes that do not wrap around 32 bits.
- Fat32Driver.Driver.Lookup: paths that go on behind a file are left out, as the source then takes the bytes of the file for entries, long names among them, with cluster numbers that may lie outside the table; `ThroughEmptyFile` is the case of an empty file.
- Fat32Driver.Driver.Parent: leaves out the same paths.
- fat32_list_op, fat32_get_info_op beyond size and type, and mounting by device name: only further traversals of the same directories.
- Heap.Allocator.KFree: headers and payloads are kept apart, so a header that the owner of a payload has written over, or made up, is not modelled.
- Heap.Allocator.KRealloc: the same, and a header that a merge has left behind in a larger free block, which the source would still trust.
- kcalloc's zeroing, valloc_aligned and vfree.
- Context switches, interrupts and the hlt-and-retry branch of schedule(): operations are atomic steps, and the retry is a step that changes nothing.
- Wrap-around of the tick counter and of pids: both are unbounded.
- fork: it aliases socket handles between tasks and hands over address spaces outside the task table.
- ELF parsing: `Libraries` starts from the program headers and the names read from the dynamic section; at most 16 needed names per object are recorded, as in the source. Names longer than the source's buffers and spans that wrap around 32 bits (`Sane`) are excluded.
- Relocate.Linker.RelocateAll: asks that no relocated word lies in a table and that string tables end in a zero byte; tables and words that wrap around the end of the address space are not modelled.
- Interpreter.InterpTokens: takes paths without blanks, quotes and backslashes, but for the one blank in `BlankSplits`.
- ProgramStack.BuildStack: takes up to 64 arguments, which is all that either caller passes.
- Blocking in recvfrom and waitpid: the model has one attempt; waiting repeats it.
- Paths.Normalize: leaves out the truncation of inputs of 255 characters and more.
- memfs nodes mounted inside memfs, memfs_search, devices' callbacks and failing allocations.
- Colours, clipping, circles and rectangles of the frame buffer: only the line algorithm.
- Drivers for devices, paging, descriptor tables, TTYs, procfs and the applets.
