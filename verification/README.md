# Verified models of the xv6 kernel and its user programs

Models, in Dafny 4.11, of the parts of this xv6 kernel and its user programs whose correctness is
not visible from any single function, with proofs of what those parts are for. `dafny verify
dfyconfig.toml` checks everything.

| files | what they are about |
|---|---|
| `Common` | optional values and the limits of param.h |
| `Blocks`, `LogMachine`, `LogRuns`, `LogBudget`, `Log` | the redo log over the buffer cache: every interleaving of processes, crashes and recoveries; the code of log.c as it is written |
| `Transaction` | one operation after another alone in the log, and every point at which the machine may stop |
| `Layout`, `Ownership`, `FileSpec`, `Files`, `FileWrite` | free map, block map, inodes on disk; readi, writei, itrunc and filewrite as operations on byte sequences, run on the log |
| `FileRuns`, `Mkfs` | runs of ialloc, writei, readi, itrunc and freeing on any inodes, with a crash anywhere; the image mkfs makes |
| `Directory`, `Links`, `InodeMap`, `Icache`, `Syscalls`, `Paths`, `PathLaws`, `Sessions` | directories, paths, link counts, inode references; runs of open, close, dup, mkdir, mknod, chdir, unlink and link |
| `Bio` | the list of the buffer cache |
| `Umalloc` | the K&R allocator of user programs |
| `ProcTable`, `Procs`, `Scheduler` | fork, exit, wait, kill, sleep and wakeup; the two-tier scheduler |
| `Paging`, `Mapping`, `Spaces`, `Vm` | frames, page tables, copying and tearing down address spaces |
| `Pipe` | the pipe's ring and its sleepers |
| `ShellGrammar`, `ShellOrder`, `Shell` | the shell's language and its parser, which works in one buffer |
| `Grep` | the regular expression matcher |

State that the C code updates in place is held in classes and arrays; what their methods do is
stated against functions and state machines about which the theorems are proved.

## What does not hold

Where the code falls short of what it is for, the model keeps the code, and the exact condition
under which it does hold is proved.

- Operations of at most MAXOPBLOCKS blocks can overfill the log: some run within a budget of k
  blocks each panics if and only if the log's capacity is at most MAXOPBLOCKS + 2k
  (`LogBudget.PanicIff`). With the layout mkfs writes, 9 is safe and 10 is not.
- log_write tests for room before it takes the lock, so two processes can pass the test together
  and append past the header array or the log area. Some run within a budget of k blocks does so if
  and only if the capacity is at least 1 and below MAXOPBLOCKS + 2k (`LogBudget.OverrunIff`, the run
  in `LogBudget.OverrunRun`). The machine stops there: the theorems about crashes are about runs up
  to an overrun, and `LogBudget.FitsThroughout` says which never have one.
- A root directory that fills its blocks gets a hole from mkfs (`FileSpec.MkfsRootHole`, if and only
  if): the new disk is in order if and only if the number of files plus two is no multiple of 32
  (`Mkfs.MakeFs`).
- malloc of more than 2^32 - 8 bytes wraps and grants too little (`Umalloc.UnitsEnough`, if and
  only if; `Umalloc.WrappedRequest`).
- malloc of a block of 2^31 bytes or more asks sbrk for a negative or zero number of bytes, which
  takes memory away or reports success for nothing: afterwards the heap is what sbrk supplied if and
  only if a free block was large enough or the byte count was below 2^31 (`Umalloc.Heap.Malloc`;
  `Umalloc.NegativeRequest`).
- A killed pipe writer leaves a reader asleep over data (`Pipe.ReadersStep`, if and only if;
  `Pipe.ReaderLeftAsleep`).
- A name made in a directory that has been removed breaks the link counts, and only such a name
  (`Sessions.Run`, if and only if; `Paths.StrayInputs`).
- The `..` of a removed directory may name an inode that was freed; looking it up panics. It happens
  if and only if the walk starts in a removed directory and its first elements, all `.` and `..`,
  lead through removed directories to a freed inode (`Paths.StaleIff`, `Paths.LostIff`;
  `Paths.StaleInput`).
- deallocuvm that starts in the middle of a missing table skips part of the next one: every private
  page is freed if and only if none lies in front of where the freeing begins (`Spaces.SkipsIff`).
- A copyuvm that fails for want of memory loses frames if and only if the number of free frames is
  one of those `Spaces.Leaks` names, and leaves the access counts of shared regions raised
  (`Vm.Kernel.CopyUvm`).

## Model

| member | source | states |
|---|---|---|
| LogMachine.HeaderRoundTrip | log.c:82-108 | what write_head encodes, read_head decodes, whatever the header block held before: the count in the first word, then the block numbers |
| LogMachine.AnyStep | log.c:67-221 | every step of every process, with log_write as its unlocked test and its locked append, eviction, crash and recovery step keeps the invariant up to an append beyond the capacity, and only a modification changes what the system sees and only write_head what a crash would leave |
| LogMachine.WriteHeadStep | log.c:97-108 | writing the header is the commit point: what recovery would yield becomes what the system sees, in one step |
| LogMachine.InstallKeepsRecovered | log.c:67-79 | copying a log block home, at any point, does not change what recovery yields |
| LogMachine.LogAppendStep | log.c:211-220 | the locked append, absorbed or new, keeps both abstract disks, and keeps the invariant or is an append beyond the capacity |
| LogMachine.EvictStep | bio.c:84-91 | recycling a clean idle buffer keeps the invariant and loses no contents |
| LogRuns.RecoversToQuiescentState | log.c:110-221 | after any run that has not gone on past an overrun of the log, recovery yields what the system saw at some moment of that run with no operation in progress |
| LogRuns.CommitIsAtomic | log.c:168-191 | from the start of a commit of a log not overrun, through any crashes and recoveries, the recovered contents are all old or all new |
| LogRuns.RecoveryIsIdempotent | log.c:110-116 | crashes during recovery, any number of them, do not change what it yields |
| LogRuns.WriteAhead | log.c:168-221 | no home block changes on disk before a header naming it is on disk |
| LogRuns.BreadIsLatest | bio.c:61-106 | through any evictions, commits and reads, bread of a block yields what its last modification in the run left, or what it held at the start |
| LogRuns.CleanBetweenOperations | log.c:182-191 | with no commit and no operation in progress no buffer is dirty and cache and disk agree |
| LogRuns.OperationNotSplit | log.c:119-165 | nothing is committed while an operation is in progress |
| LogRuns.EndOpNeverPanics | log.c:139-149 | a commit never overlaps an operation, so the panic of end_op is unreachable |
| LogRuns.SleeperHasWaker | log.c:119-165 | while anyone sleeps in begin_op there is an operation or a commit whose end wakes all sleepers |
| LogBudget.LogNeverOverfills | log.c:119-135 | over every run within the budget, blocks logged plus unspent budgets never exceed LOGSIZE |
| LogBudget.FitsThroughout | log.c:119-221 | with budgets of k blocks, logged plus unspent stays within MAXOPBLOCKS + 2k; where that is below the capacity no log_write panics, and where it is not above it none overruns the log |
| LogBudget.PanicIff | log.c:202-221 | some run within budgets of k blocks panics if and only if the capacity is at most MAXOPBLOCKS + 2k |
| LogBudget.PanicRun | log.c:202-221 | the run that panics, for every such capacity and k |
| LogBudget.OverrunIff | log.c:202-221 | some run within budgets of k blocks appends beyond the log if and only if the capacity is at least 1 and below MAXOPBLOCKS + 2k |
| LogBudget.OverrunRun | log.c:206-220 | the run in which two processes pass the test with one block left and both append; the last block is beyond the header array or beyond the log area |
| Log.Log.constructor | log.c:52-64 | power on: only the disk survives |
| Log.Log.Bread | bio.c:97-106 | the data are the latest contents; what recovery yields is unchanged |
| Log.Log.WriteLog | log.c:168-180 | all logged blocks are copied to the log; what recovery yields is unchanged |
| Log.Log.EncodeHeader | log.c:97-108 | the loop over the block numbers writes exactly the encoded header |
| Log.Log.WriteHead | log.c:97-108 | afterwards recovery yields what the system sees |
| Log.Log.InstallTrans | log.c:67-79 | all logged blocks are at home; what recovery yields is unchanged |
| Log.Log.ClearHead | log.c:182-191 | the log is empty; what recovery yields is unchanged |
| Log.Log.Commit | log.c:182-191 | the new contents are committed, and a stop after any step of it recovers to all old or all new contents |
| Log.Log.ReadHead | log.c:82-92 | the header in memory is the one on disk |
| Log.Log.RecoverFromLog | log.c:110-116 | the committed contents are restored, and a stop after any step of it still recovers to them |
| Log.Log.BeginOp | log.c:119-135 | one pass: admitted exactly if no commit runs and the log has room, else asleep |
| Log.Log.LogTest | log.c:206-209 | the test made before the lock is taken, as the step of the machine |
| Log.Log.LogAppend | log.c:211-220 | the append under the lock as the step of the machine: the block in the header once, its buffer pinned, beyond the capacity exactly if it is new and the log is full |
| Log.Log.LogWrite | log.c:202-221 | with nobody in between: the block is in the header once, or the panic exactly if the log is at its capacity; never an overrun |
| Log.Log.EndOp | log.c:139-165 | the last operation out commits all that was written, any other commits nothing; all waiting processes are woken |
| Transaction.LoneOp | log.c:119-221 | an operation alone in the log, with room for its writes, runs to the end of its commit, and the disk then is the old one with all its writes |
| Transaction.LoneOpRecovers | log.c:119-221 | stopped after any of its steps, recovery yields the old disk or the disk with all its writes |
| Transaction.TiedOp | log.c:119-221 | one more operation after a run: the schedule goes on, and recovery after any of its steps yields the disk before or after one of the operations |
| Layout.InodeRoundTrip | fs.c:195-210 | ilock reads back the inode iupdate wrote; other inodes of the block are untouched |
| Layout.InodeFields | fs.h:28-35 | each field of an inode lies, little-endian, at its place in the 64 bytes of the inode |
| Layout.SetBitOf | fs.c:51-72 | setting a bit of the free map sets that bit and no other |
| Layout.ClearBitOf | fs.c:75-89 | clearing a bit of the free map clears that bit and no other |
| Ownership.Disjoint | fs.c:345-372 | no block is named by two slots of any inodes |
| Ownership.MarkUsed | fs.c:51-72 | a block with a clear bit is nobody's, and marking it keeps the free map exact |
| Ownership.MarkFree | fs.c:75-89 | a block being given up has its bit set, and clearing it keeps the free map exact |
| Ownership.AttachIndirect | fs.c:345-372 | a word written into the indirect table adds one block to one slot and changes no other slot |
| Ownership.DetachTable | fs.c:379-406 | dropping the table gives up the table and exactly the blocks it names |
| Ownership.Sync | fs.c:195-210 | writing one inode keeps the ownership of all blocks |
| FileSpec.TurnBytes | fs.c:448-478 | one turn of writei overwrites exactly its bytes of the file |
| FileSpec.StepsSpan | fs.c:448-478 | the turns of writei are at most the blocks the write spans |
| FileRuns.WriteThenRead | fs.c:420-478 | a write followed by a read of the same bytes, on any inode, yields what was written |
| FileSpec.OtherFilesKept | fs.c:345-478 | other files keep their inode, their blocks and every byte |
| FileSpec.TruncSummary | fs.c:379-406 | after itrunc the set bits are those before but the inode's, and other files are kept |
| FileSpec.MkfsRootHole | mkfs.c:150-157 | the rounded-up root has all its blocks if and only if its size was not a multiple of the block size |
| Files.FileSystem.FindFree | fs.c:51-72 | the lowest clear bit below the size, none exactly if all are set |
| Files.FileSystem.Balloc | fs.c:38-72 | a block that was free, now marked and zero; none only if all bits are set or the log is full |
| Files.FileSystem.Bmap | fs.c:345-372 | the block of the file at that index, allocated and zeroed only if it was missing; panic beyond MAXFILE, on a full disk or with a full log, and only then |
| Files.FileSystem.Iupdate | fs.c:195-210 | the inode on disk is the one in memory and nothing else changes; the panic only with a full log |
| Files.FileSystem.Writei | fs.c:448-478 | the file's bytes are overwritten at the offset and nowhere else, the size is the maximum, the blocks logged are bounded, also up to a panic, and the failure cases exactly; a panic only on a full disk or with a full log |
| Files.FileSystem.Readi | fs.c:420-444 | a slice of the file's bytes; nothing is allocated or logged on a file without holes; the failure cases exactly |
| Files.FileSystem.Bfree | fs.c:75-89 | the bit of a block nobody names is cleared; the panic of a free block is unreachable |
| Files.FileSystem.Itrunc | fs.c:379-406 | exactly the inode's blocks are released, each once, and the empty inode is on disk; a panic only with a full log |
| Files.FileSystem.LogWrite | log.c:202-221 | the change joins the operation's writes, which lead from the disk at begin_op to the disk now and fit the log; the panic exactly at the capacity |
| FileWrite.ChunkFits | file.c:118-138 | a chunk logs at most 14 data blocks, the table, the inode and the free map |
| FileWrite.MkfsRoom | mkfs.c:85-97 | with the layout mkfs writes a chunk alone in the log always has room |
| FileWrite.WriteChunk | file.c:126-140 | one chunk is one overwrite of the file, made by one operation in the log; with room for a chunk in the log, a panic only on a full disk |
| FileWrite.FileWrite | file.c:110-148 | the write is one overwrite by the concatenated chunks, by all n bytes exactly if the result is n; stopped after any step of its schedule on the log machine, recovery yields the file overwritten by some number of whole chunks; the result is n exactly if all of it fits; with room for a chunk in the log, a panic only on a full disk |
| FileRuns.HandOver | fs.c:259-287 | blocks accounted for with one inode in memory equal to its disk copy are accounted for with any other inode read from the disk |
| FileRuns.OtherFile | fs.c:345-478 | a file other than the one written keeps its inode, has exactly its blocks, and keeps its bytes |
| FileRuns.AfterOp | fs.c:195-478 | an operation that leaves its inode in order and written back leaves every block of the disk accounted for and every other file as it was |
| FileRuns.Ialloc | fs.c:173-192 | the first free inode gets the type given, no links, no contents and no device numbers, and no other file changes; none exactly if all are in use or the log is full |
| FileRuns.Free | fs.c:308-326 | the end of iput: the inode is free, its blocks are free, no other file changes |
| FileRuns.Run | fs.c:173-478 | over any sequence of ialloc, writei, readi, itrunc and freeing on any inodes each does to the files and returns what it should, with type, links and device numbers as they must be, up to a panic, which has one of its reasons; every block is accounted for after each, and on every disk recovery may find wherever the machine stops |
| Mkfs.HandedOut | mkfs.c:243-285 | taking the next block number is what balloc would do to the free map that is written at the end |
| Mkfs.BlankImage | mkfs.c:105-110 | the zeroed image with the metadata marked is in order |
| Mkfs.Builder.Iappend | mkfs.c:243-285 | the file is longer by the data, every block is accounted for, no other file changes; failure only on a full disk or beyond the largest file |
| Mkfs.DirentDecodes | mkfs.c:139-144 | an entry mkfs writes is read as that inode number, low byte first, and that name, cut to 14 characters |
| Mkfs.Builder.Finish | mkfs.c:152-159 | the free map is exact, the root directory keeps its entries, and the disk is in order if and only if the directory did not fill its blocks |
| Mkfs.MakeFs | mkfs.c:64-162 | every file is on the disk with its contents in an inode of its own with one link; the entries of the root directory, decoded, are itself twice and each file under its name; every block is accounted for, and the disk is in order if and only if the number of files plus two is no multiple of 32; failure only on a full disk or beyond the largest file |
| Mkfs.FirstBoot | mkfs.c:105-110 | the first start from the image finds an empty log and sees the image |
| Directory.LookupIsMap | fs.c:490-513 | dirlookup finds a name exactly if the directory's map has it, and finds what it maps to |
| Directory.LinkIsUpdate | fs.c:516-541 | dirlink adds exactly one pair to the map and keeps names distinct |
| Directory.UnlinkIsRemoval | sysfile.c:205-207 | unlink removes exactly one pair from the map |
| Directory.NameCmp | fs.c:483-486 | 14-byte fields compare equal exactly if they hold the same name |
| Directory.SkipElem | fs.c:558-580 | the elements of the path are the element returned and those of the rest; none exactly if there are none; the rest is empty exactly at the last |
| Links.RootAlone | mkfs.c:112-123 | the link-count rule holds of a new file system |
| Links.LinkFileSound | sysfile.c:108-154 | a new name for a file in a linked directory keeps all link counts right |
| Links.LinkDirSound | sysfile.c:228-271 | a new directory in a linked directory keeps all link counts right, its own and its parent's |
| Links.UnlinkFileSound | sysfile.c:172-226 | removing a file's name keeps all link counts right |
| Links.EmptyHasOneLink | sysfile.c:157-169 | an empty directory has exactly one link, from the directory its ".." names |
| Links.UnlinkDirSound | sysfile.c:172-226 | removing an empty directory keeps all link counts right, its own and its parent's |
| Links.NamelessSound | fs.c:173-192 | allocating and freeing inodes without links keeps all link counts right |
| Links.LinkFileBreaks | sysfile.c:129-138 | a name in a removed directory makes a link count wrong, always |
| Links.LinkDirBreaks | sysfile.c:253-266 | a directory in a removed directory makes a link count wrong, always |
| Paths.NeverStale | fs.c:586-618 | from a linked directory no path meets a freed inode, and what it names is in use |
| Paths.StaleIff | fs.c:586-618 | lookup meets a freed inode if and only if the leading "." and ".." lead from a removed directory through removed directories to one, with elements left |
| Paths.LostIff | fs.c:259-287 | namei or the ilock of its result panics for a freed inode if and only if that, or the path ends there; never for a path from the root |
| Paths.StaleInput | fs.c:586-618 | a state between calls and a path for which it happens |
| Paths.StrayInputs | sysfile.c:228-271 | states in which a new file and a new directory in a removed directory make a link count wrong |
| PathLaws.ElementsJoin | fs.c:558-580 | the elements of p/q are those of p and then those of q |
| PathLaws.SingleElement | fs.c:558-580 | a path without slashes is one element, cut to 14 characters |
| PathLaws.ParentIsPrefix | fs.c:586-618 | nameiparent finds what namei finds for all but the last element, if that is a directory |
| PathLaws.RelativePath | fs.c:586-618 | with the working directory at what p names, a relative path q names what p/q names from the old one |
| PathLaws.AbsolutePath | fs.c:586-618 | an absolute path names the same from every working directory |
| PathLaws.CreatedIsFound | sysfile.c:228-271 | after create the path names the new inode, and every path that named something names the same |
| PathLaws.LinkedIsFound | sysfile.c:108-154 | after link both paths name the file |
| PathLaws.UnlinkedIsGone | sysfile.c:172-226 | after unlink the path names nothing, and no path names anything it did not name before |
| Icache.InodeCache.Iget | fs.c:215-245 | one slot an inode, the count is the references that are out, and the map the slots stand for gains exactly this reference; none exactly if the inode is not cached and all slots are in use |
| Icache.InodeCache.Idup | fs.c:249-255 | one reference more, in the slots and in the map they stand for |
| Icache.InodeCache.Drop | fs.c:308-326 | one reference less, in the slots and in the map they stand for; the slot is free after the last |
| Icache.FullMap | fs.c:215-245 | with all slots taken by one device the map has as many inodes as there are slots |
| Syscalls.FileTree.Iput | fs.c:308-326 | the last reference to an inode without links frees it; link counts stay right, inodes without links stay referenced until then, and no free inode is referenced |
| Syscalls.FileTree.DirLookup | fs.c:490-513 | the first live entry of the name, with a reference; none exactly if there is none |
| Syscalls.FileTree.DirLink | fs.c:516-541 | refused exactly if the name is there, else the first free entry is written; references as before; a panic only for want of cache slots, of room in the directory or of a block for it |
| Syscalls.FileTree.Ialloc | fs.c:173-192 | the first free inode becomes allocated, with a reference |
| Syscalls.FileTree.WalkElem | fs.c:595-612 | one turn of namex, on each of its ways out with references and locks balanced |
| Syscalls.FileTree.Namex | fs.c:586-618 | what the path names, element by element, from the root if it begins with a slash and else from the working directory; exactly the returned reference is added, nothing stays locked, and no inode is freed; a panic only for want of cache slots or where `Paths.StaleIff` says |
| Syscalls.FileTree.UseExisting | sysfile.c:238-245 | an existing file is returned locked for T_FILE; otherwise nothing is kept |
| Syscalls.FileTree.Create | sysfile.c:228-271 | the new inode and its name, an existing file, or nothing, each only when the path says so; on each way out exactly the returned reference and lock; link counts stay right if and only if the directory is linked |
| Syscalls.FileTree.Open | sysfile.c:273-320 | the inode the path names or create made, whose reference the file takes over; failure only for want of it or of a file, and then references and locks are as before; link counts stay right unless a name went into a removed directory |
| Syscalls.FileTree.Make | sysfile.c:322-355 | mkdir and mknod: the new inode with its name and no reference kept, or nothing, each only when the path says so |
| Syscalls.FileTree.Close | file.c:52-75 | the reference goes, and with the last one an inode without links; all that holds between calls still holds |
| Syscalls.FileTree.Chdir | sysfile.c:357-378 | the reference of the old directory is exchanged for one of the new; the old one is freed exactly if that was the last and it has no links |
| Syscalls.FileTree.IsDirEmpty | sysfile.c:157-169 | true exactly if no entry but the first two is live |
| Syscalls.FileTree.Unlink | sysfile.c:172-226 | the entry goes, link counts stay right, the inode is freed exactly if it has neither links nor references; failure exactly when the name may not be unlinked, with nothing changed; the panic for too few links is unreachable |
| Syscalls.FileTree.Link | sysfile.c:108-154 | one name and one link more, or nothing changed because there is no such file or no room for the name; references and locks balanced; link counts stay right if and only if the directory is linked |
| Sessions.Session.Open | sysfile.c:273-320 | the lowest descriptor and a new open file on the inode the path names or create made; refused only for want of a file slot, of a descriptor or of what the path must name, with both tables as before; all references accounted for; a panic only for its reasons |
| Sessions.Session.Close | sysfile.c:85-95 | refused exactly if there is no such file; else the descriptor is free, and with the last one of an open file its inode is given up and freed exactly if it has neither links nor other references; all references accounted for |
| Sessions.Session.Dup | sysfile.c:50-61 | the lowest descriptor for the same open file; refused exactly if there is no such file or no descriptor |
| Sessions.Session.Do | sysfile.c:50-378 | one system call on names, inodes, working directory, open files and descriptors; all that holds between calls holds after it if and only if it put no name into a removed directory |
| Sessions.SoundUnlessStray | sysfile.c:108-271 | after a call the link counts are right if and only if it put no name into a removed directory |
| Sessions.Session.constructor | proc.c:83-115 | the first process on a disk with nothing but the root directory |
| Sessions.Run | sysfile.c:50-378 | over any sequence of open, close, dup, mkdir, mknod, chdir, unlink and link each call does what it should, up to a panic, which has one of its reasons; after each the inode references are exactly the working directory and the open files, and the file references exactly the descriptors; all that holds between calls holds throughout if and only if every new name went into a linked directory |
| Bio.Unlink | bio.c:126-127 | the ring without the buffer is linked both ways |
| Bio.PushFront | bio.c:128-131 | the ring with the buffer first is linked both ways |
| Bio.BufferCache.constructor | bio.c:39-56 | all buffers on the ring, none cached twice, none held |
| Bio.BufferCache.FindCached | bio.c:69-79 | the buffer of the block, or none caches it |
| Bio.BufferCache.FindIdle | bio.c:84-91 | an idle clean buffer released no later than any other, or there is none |
| Bio.BufferCache.Bget | bio.c:61-94 | the cached buffer, or the least recently released idle clean one recycled, or sleep on the busy one, or the panic, each exactly when; one buffer a block, one holder a busy buffer |
| Bio.BufferCache.Brelse | bio.c:119-137 | the buffer is free and first on the ring, which still holds every buffer once, latest release first |
| Umalloc.Apart | umalloc.c:8-22 | blocks, free or handed out, do not overlap |
| Umalloc.FreedSpread | umalloc.c:24-43 | after free the blocks partition the memory and no two free ones are adjacent |
| Umalloc.FreeCode | umalloc.c:24-43 | the assignments of free, in either merge case, lead to the merged list |
| Umalloc.UnitsEnough | umalloc.c:61-68 | the units granted hold the bytes asked for if and only if these are at most 2^32 - 8 |
| Umalloc.WrappedRequest | umalloc.c:61-68 | a request of almost 2^32 bytes that is granted a header alone |
| Umalloc.NegativeRequest | umalloc.c:45-59 | a request for which sbrk is asked for a negative number of bytes |
| Umalloc.ArgSign | umalloc.c:52-52 | what sbrk receives is positive exactly if the byte count is below 2^31 |
| Umalloc.Heap.FindPlace | umalloc.c:29-31 | the walk stops at the one free block after which the block belongs |
| Umalloc.Heap.Free | umalloc.c:24-43 | the block is free and merged, other blocks keep header and place, and its size can be had again |
| Umalloc.Heap.Sbrk | proc.c:120-135 | a positive count is granted or refused; a negative one takes memory away, or wraps and reports success for nothing; refused exactly if all memory went |
| Umalloc.Heap.Morecore | umalloc.c:45-59 | that many units and at least 4096 join the list, or nothing changes and sbrk failed; the list is what sbrk supplied if and only if its argument was positive |
| Umalloc.Heap.Take | umalloc.c:72-82 | the whole block or its tail is handed out; the rest stays on the list |
| Umalloc.Heap.Malloc | umalloc.c:61-88 | a new block of the right size disjoint from all others; null exactly if sbrk failed; a request some free block can hold is granted without sbrk; the search ends; the heap is what sbrk supplied if and only if such a block was there or the byte count was below 2^31 |
| ProcTable.AnyStep | proc.c:36-480 | every step of allocproc, fork, exit, wait, kill, sleep, wakeup, yield and the scheduler keeps the table's invariant |
| ProcTable.FamilyAlways | proc.c:190-280 | in every reachable table nobody sleeps in wait over a zombie child, every parent is alive, no pid is reaped twice or while its process is there, and the running processes are exactly those on the cpus, each on one |
| ProcTable.ReapsOwnChildOnce | proc.c:243-280 | wait returns a child of the caller, never returned before, and frees its slot |
| ProcTable.WakesAll | proc.c:443-458 | wakeup makes every sleeper on the channel runnable and changes nothing else |
| ProcTable.SleepThenWakeup | proc.c:405-458 | whoever went to sleep on a channel and has slept since, through any steps, is made runnable by a wakeup on it |
| ProcTable.KillSticks | proc.c:463-480 | a killed process stays marked until it has been waited for |
| Procs.PTable.AllocProc | proc.c:36-79 | the first unused slot becomes an embryo with a new pid; none exactly if there is none |
| Procs.PTable.WakeupAll | proc.c:443-450 | every slot that slept on that channel is runnable with its other fields kept, and every other slot is unchanged |
| Procs.PTable.Exit | proc.c:220-239 | slot by slot: the caller is a zombie, its children are init's, its parent is woken if it waits, and init if it waits and gets a zombie; nothing else changes |
| Procs.PTable.Wait | proc.c:243-280 | reap the first zombie child, whose slot is free and blank then, or give up exactly if there are no children or the caller is killed, or sleep |
| Procs.PTable.Kill | proc.c:463-480 | the first process of that pid is marked and, if asleep, runnable, and no other slot changes; found exactly if there is one |
| Scheduler.HighSoon | proc.c:290-353 | a high-priority process that stays runnable until it is dispatched is dispatched within NPROC + 2 looks at the table, after at most NPROC - 1 others, wherever the scheduler stood |
| Scheduler.OnePass | proc.c:290-353 | without one, a pass dispatches each slot that stays runnable exactly once |
| Scheduler.DispatchesRunnable | proc.c:290-353 | only runnable processes are dispatched, in the first loop only the one of high priority |
| Scheduler.HighMonopolises | proc.c:290-353 | while one is runnable at every turn nothing else is dispatched |
| Scheduler.FindHigh | proc.c:303-317 | the first runnable process with the high pid; none exactly if there is none or no pid is set |
| Paging.TableAdded | vm.c:44-63 | a new zeroed table changes no mapping of the address space |
| Paging.EntrySet | vm.c:68-87 | an entry written changes the mapping of that page alone |
| Paging.OtherFrames | vm.c:44-63 | what happens in frames that are not its tables does not concern an address space |
| Mapping.KmapCount | vm.c:112-144 | each line of kmap needs exactly so many tables beyond those before it |
| Vm.Kernel.WalkPgdir | vm.c:44-63 | the table of the page, made from the first free frame if missing and allowed; null exactly if it is missing and not to be had |
| Vm.Kernel.MapPages | vm.c:68-87 | the pages map to consecutive frames with the permissions, no others change, exactly the missing tables are made; failure exactly if these exceed the free frames |
| Vm.Kernel.SetupKvm | vm.c:119-144 | page by page: memory mapped at KERNBASE and devices at their own addresses, nothing else, nothing of it open to user code, all but the kernel's text writable; from the first 65 free frames; failure exactly with fewer, and then all of them are lost |
| Vm.Kernel.FindPA | shm.h:362-376 | the first region at the address has its count changed by that much and no other region is; none exactly if there is no such region |
| Vm.Kernel.DeallocUvm | vm.c:244-281 | exactly the private pages from where the freeing begins to the end are unmapped and their frames freed, each once; shared ones are counted |
| Spaces.BeginIs | vm.c:255-259 | the freeing begins at the first page, in steps of a whole table, that has a table |
| Spaces.DriftIs | vm.c:266-271 | the count of a region changes by the given amount for each page that maps it |
| Spaces.SkipsIff | vm.c:255-259 | every private page of the range is freed if and only if none lies between the new size and where the freeing begins |
| Vm.Kernel.FreeVm | vm.c:287-301 | exactly the directory, the tables and the private frames are freed, each once, and no other frame changes |
| Vm.Kernel.CopyUvm | vm.c:317-357 | success exactly if the frames suffice, and then above the user pages there are the kernel's, none open to user code; a failing copy gives back all frames exactly if their number is none of those that leak; access counts in each case |
| Spaces.CopyDisjoint | vm.c:317-357 | each page of a copy has the same flags and contents; private pages are in frames disjoint from the parent's, shared pages in the same frame, and above them are the kernel's pages; the parent is as before |
| Spaces.CopyOwns | vm.c:317-357 | a copy owns its frames, each once, and they are the ones it took from the free list |
| Spaces.CleanFailure | vm.c:340-356 | running out before a page's own frame, or before the table for a shared page, is no leak |
| Vm.Kernel.CopyThenFree | vm.c:287-357 | a copy torn down gives back exactly the frames it took and all access counts |
| Pipe.FullTest | pipe.c:75-116 | with wrapping 32-bit counters the tests for full and empty are right |
| Pipe.RingIndex | pipe.c:75-116 | with wrapping counters the ring index is right |
| Pipe.Pipe.Write | pipe.c:75-94 | the bytes appended are a prefix of those offered, up to the room; if some are left the pipe is full, and it fails exactly if the read end is closed or the writer killed and sleeps exactly if not; readers are woken unless it failed |
| Pipe.Pipe.Read | pipe.c:96-116 | the bytes delivered are the next ones sent, as many as there are and asked for; on an empty pipe with its write end open it fails exactly if the reader is killed and sleeps exactly if not; writers are woken exactly on success |
| Pipe.WritersStep | pipe.c:57-116 | a sleeping writer faces a full pipe with its read end open |
| Pipe.ReadersStep | pipe.c:57-116 | a sleeping reader faces an empty pipe with its write end open, kept by a step if and only if that is no killed write of more than PIPESIZE bytes while a reader sleeps |
| Pipe.SleepersAlways | pipe.c:57-116 | both over every run, the second up to the first such write |
| Pipe.WhoFails | pipe.c:75-116 | no unkilled reader fails and no killed process goes to sleep; reads and writes fail or sleep exactly when they must |
| Pipe.SleeperNotKilled | pipe.c:75-116 | over every run, whoever sleeps went to sleep unkilled and has not been killed since |
| Pipe.ReaderLeftAsleep | pipe.c:80-86 | the write that leaves a reader asleep over a full pipe |
| ShellGrammar.PrintedLine | sh.c:323-436 | every line of the grammar, whatever follows it, is parsed to its own tree |
| ShellGrammar.LinePrints | sh.c:323-436 | whatever is parsed is a line of the grammar, with fewer than MAXARGS arguments a command |
| ShellGrammar.ParsesExactly | sh.c:323-436 | a token list is parsed to a tree if and only if the tree prints it, so the grammar is unambiguous |
| ShellGrammar.LineWords | sh.c:339-436 | the command structure holds each word of the line exactly once |
| ShellGrammar.TokenWords | sh.c:262-305 | the word tokens are the maximal runs of word characters, each once |
| ShellOrder.LineOrder | sh.c:339-436 | in the structure a line stands for, the words of the two sides of a pipe or list lie on the two sides of its symbol, arguments and redirections follow each other as written, and a redirection has descriptor 0 exactly behind a less-than sign |
| ShellOrder.EveryCommandParses | sh.c:339-436 | every command structure with descriptors 0 and 1 and few enough arguments is what the parser makes of the line written for it |
| Shell.Peek | sh.c:307-316 | true exactly if the next token starts with one of the symbols; nothing but space is consumed |
| Shell.GetToken | sh.c:262-305 | the next token of the line and where the rest begins |
| Shell.ParseRedirs | sh.c:367-389 | all redirections there, failing exactly if one has no file |
| Shell.ParseArgs | sh.c:419-433 | the arguments and the redirections among them, in order |
| Shell.ParseExec | sh.c:406-436 | the command the tokens from there stand for, or failure, as the grammar says |
| Shell.ParseBlock | sh.c:391-404 | the same for a parenthesised line |
| Shell.ParsePipe | sh.c:355-365 | the same for a pipeline, its sides in the order of the line |
| Shell.ParseLine | sh.c:339-353 | the same for a line, its commands in the order of the line |
| Shell.NulTerminate | sh.c:439-482 | a NUL is written where each word ends and nowhere else |
| Shell.WordSurvives | sh.c:439-482 | no word is cut short by another's NUL: as a C string it reads as in the original line |
| Shell.ParseCmd | sh.c:323-337 | success exactly for lines of the grammar, with the structure the line stands for, lying in it in order, every word of the line in it once and readable as a C string |
| Grep.PrefixStar | grep.c:82-103 | a starred character matches by some number of repetitions, then the rest |
| Grep.MatchStar | grep.c:96-103 | true exactly if some number of repetitions lets the rest match here |
| Grep.MatchHere | grep.c:82-93 | true exactly if a prefix of the text is in the language of the pattern |
| Grep.Match | grep.c:70-79 | true exactly if some substring, or with a caret some prefix, is in the language of the pattern |
| Grep.LiteralMatches | grep.c:70-103 | a pattern without special characters is found exactly as a substring, with a caret as a prefix, with a dollar sign as a suffix, with both as the whole text |

## Left out

- Processes in the middle of system calls: `Syscalls`, `Files`, `FileWrite`, `FileRuns` and `Sessions` run one call at a time; interleavings are modelled for the log, the process table, the scheduler and the pipe.
- Runs that go on after an append beyond the log: the machine stops there, because what the code then overwrites is outside the log.
- Inode contents as bytes in `Syscalls`: directories there are sequences of entries, with `Directory.NameCmp` for the 14-byte names; the byte level is in `Files`.
- Files.FileSystem.Readi: not the branch for devices, because it only passes the call on.
- Files.FileSystem.Writei: not the branch for devices, because it only passes the call on.
- FileWrite.ChunkFits: bounds a chunk by 16 blocks and the free map, not by MAXOPBLOCKS, because filewrite sizes its chunks from LOGSIZE.
- FileWrite.FileWrite: crashes of a write alone in the log; several processes in the log at once are in `LogRuns`.
- Mkfs.MakeFs: assumes that there are inodes enough for the files and that one free-map block is enough, as mkfs does without a test.
- Log.Log.BeginOp: one pass of the loop; what happens after a wakeup is the next pass, covered over runs by the machine.
- Bio.BufferCache.Bget: one pass from the label on; the retry after sleeping is the next call.
- kalloc and kfree: the free list is a sequence, and the link through the freed frame is not modelled.
- Umalloc.Heap.Morecore: the store of the header into memory sbrk did not supply may fault; the model goes on with the list.
- Syscalls.FileTree.Open: filealloc and fdalloc are one parameter; `Sessions.Session.Open` has the tables.
- Syscalls.FileTree.DirLink: whether a block is to be had is a flag of the disk; the blocks themselves are in `Files`.
- The link count as a 16-bit number, and process ids beyond the int range.
- The number of buffers: the log's machine does not limit how many blocks are cached, so the panic of bget for want of buffers is only in `Bio`.
- Log callers' discipline: buffers are modified only inside an operation and logged before they are released.
- sys_pipe, sys_fstat, and open files shared between processes, which would only add easy members.
- allocuvm, loaduvm, exec, and the system calls for shared memory other than the lookup of a region.
- Kernel mutexes and condition variables, spinlocks, interrupts, drivers, the console, printf and the other user programs.
