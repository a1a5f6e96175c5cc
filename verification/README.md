# A verified model of the xv6 kernel core and of Maekawa mutual exclusion

This project models the logic of a teaching kernel (xv6, with message passing, a barrier and
Maekawa mutual exclusion added) and proves what it is meant to guarantee: file system crash
safety, mutual exclusion and termination of the distributed lock, ownership of disk blocks,
memory pages and heap units, the process tree, and the lossless behaviour of pipes, mailboxes,
the barrier and the shell parser. Where the code does not meet a promise, the exact condition
under which it does is proved instead, beside a run that breaks it.

`dafny verify dfyconfig.toml` checks all of it.

## How things are modelled

| files | models |
|---|---|
| `Disk.dfy`, `LogSpec.dfy`, `Log.dfy` | the redo log: images of the disk after every single block write, `commit`, recovery, and the methods of `log.c` that produce exactly those images |
| `GroupCommit.dfy`, `LogSpace.dfy`, `LogRace.dfy` | all interleavings of operations, cache traffic, commit, crash and recovery as one transition system; how full the log can get; the runs that panic or write past the log |
| `LogSteps.dfy`, `LogCache.dfy` | the methods of `Log.dfy` as steps of that transition system, and the device they work on as a view of the buffer cache |
| `LogBuffers.dfy` | log and a cache of `NBUF` buffers in one transition system: when `bget` runs out of buffers |
| `Bio.dfy` | the buffer cache: the doubly linked list, recycling, pinning, and what `bread` returns over every sequence of calls |
| `Bits.dfy`, `FsSpec.dfy`, `Fs.dfy` | bitmap allocator, block map, truncation, file reads and writes, the chunks of `filewrite`, and that every block changed is logged |
| `VmSpec.dfy`, `Vm.dfy` | two-level page tables (32-bit paging, section 4.3 of the Intel SDM volume 3A) over the page allocator |
| `Heap.dfy` | the user allocator of section 8.7 of Kernighan and Ritchie, 2nd edition |
| `ProcSpec.dfy`, `Proc.dfy` | `fork`, `exit`, `wait`, `sleep`, `wakeup`, `kill` over the process table |
| `Barrier.dfy`, `Mailbox.dfy`, `Pipe.dfy`, `Ring.dfy` | the reusable barrier, the mailboxes, pipes, and the ring buffer shared by mailboxes and the Maekawa queue |
| `Quorum.dfy`, `Maekawa.dfy`, `MaekawaProof.dfy` | grid quorums, the protocol of `maekawa_linux.c` as steps over mailboxes, and its proof |
| `Shell.dfy`, `ShellPrint.dfy`, `ShellParser.dfy` | tokenizer and parser as functions, the proof that they undo fully parenthesised printing, and the loops of `sh.c` with the in-place NULs |
| `ShellLex.dfy`, `ShellFlat.dfy`, `ShellFaults.dfy` | the language of `sh.c`: texts as spaced tokens, command lines with their own precedence and redirections anywhere, what each means, and what a refused text is refused for |
| `Sets.dfy` | optional values, counting of finite sets |

Code that updates things in place is a class whose methods are proved equal to functions on
values; the properties are proved about those functions. Concurrent code (log, buffer cache, pipe,
process table, barrier, mailboxes, Maekawa) is a step relation. A step is one hold of the lock that
guards the state; what is done without that lock is a step of its own: the size check of
`log_write`, each block write of commit and recovery, a crash. A run is a sequence of states and a
sequence of events, and the theorems about this code hold for every run of every length. `panic`
is an outcome.
Integers are unbounded except where the width matters: pipe counters, `off + n` in `readi` and
`writei`, the size `malloc` computes, the int it passes to `sbrk` and the device row of `kmap` wrap at
2^32 explicitly.

## Where the code and what it says differ

- `log_write` looks at the size of the log before it takes `log.lock`. Two operations can both find
  room for one block and then both append. With the log `mkfs` makes (30 blocks, the inodes right
  behind it) and operations that log 9, 9 and 10 blocks, the list reaches 30 entries and `write_log`
  writes the last one over the first inode block, without a panic. `LogRace.RaceRun` builds such a
  run for every log and every bound m on the blocks an operation logs for which `begin_op`'s
  reservation has no room; `LogRace.SoundIff` says that every run is safe exactly when 10 + 2m blocks
  fit the list and the log on disk (or nothing can be logged), which for `mkfs`'s log is m < 10.
- `param.h` calls `MAXOPBLOCKS` (10) the most blocks any operation writes. `log_write` can panic when
  operations do log 10 blocks, because it checks against `log.size - 1` while `begin_op` reserves
  against `LOGSIZE`. `LogRace.PanicFreeIff` gives the exact limit for every log size; for `mkfs`'s log
  no run panics if and only if operations log fewer than 10 distinct blocks. `LogRace.PanicRun` builds
  a run that panics for every size and bound beyond the limit. The panics meant here are that check of
  `log_write`, that of `end_op`, and a write past the end of the disk.
- Logged blocks stay in the cache until they are installed, and the cache has only `NBUF` (30) buffers.
  `LogBuffers.BgetFreeIff`: `bget` never panics for lack of buffers if and only if 10 + 2m and the
  buffers held when one more is asked for are together fewer than 30. With m = 9, the most that the
  log of `mkfs` is safe for, two held buffers are one too many (`LogBuffers.StuckRun`).
- A ring of 500 entries holds 499 messages. The 500th pending message to one receiver makes its
  ring look empty, so all 500 are lost (`Mailbox.OverflowRun`). `Mailbox.FaithfulIff`: a run delivers
  everything once and in order if and only if each send that finds a free slot finds fewer than 499
  messages pending for its receiver.
- `pipewrite` gives up on a full pipe without waking the readers. A killed process that writes more
  than 512 bytes while a reader sleeps leaves that reader asleep on a full pipe (`Pipe.MissedRun`).
  `Pipe.NoneMissedIff`: this is the only way in which a reader is left asleep with bytes to read.
- `malloc` computes in 32 bits twice: it rounds the size up, and `morecore` multiplies units by 8 and
  passes the product to `sbrk` as an int. A block from the free list is large enough if and only if
  `nbytes + 7` does not wrap (`malloc(0xffffffff)` gives a bare header). A block for which `sbrk` is
  asked has memory and room for what was asked if and only if `nbytes <= 0x7ffffff0`: beyond, `sbrk` is
  asked for 0 or a negative number of bytes, gives nothing or takes memory away, and answers an address
  all the same. `Heap.Heap.Malloc` states both; `Heap.AsksForNothing` has the first sizes that fail.
- `kill` looks for its pid in free slots too, and a slot keeps its `killed` mark when a fork that failed
  gives it back. `kill(0)` so marks the first free slot, and the process forked into it starts out killed
  (`ProcSpec.BornKilled`). `ProcSpec.CleanIff`: no free slot is ever marked if and only if no kill finds its
  pid in a free slot and no process is killed while a fork that will fail makes it.
- In `sh.c` an `&` ends a line unless a `;` follows: `a & b` is refused, and `(a & b)` too
  (`ShellFlat.ParseOfFlat`).
- `allocuvm` out of memory unmaps the whole range up to `newsz`, also pages that were mapped there
  before the call. `Vm.Kernel.Allocuvm`: it leaves the map as it was if and only if no page of the range
  was mapped; `VmSpec.LosingInput` is an address space that loses a page.
- `filewrite` reserves two blocks of slop per chunk; `Fs.FileSystem.FileWrite` shows a chunk logs
  every block it changes and at most 6 blocks plus the bitmap blocks, 7 on a disk with one bitmap block.

## Model

| member | source | states |
|---|---|---|
| LogSpec.HeadRoundTrip | xv6A1/log.c:86-113 | reading a header block back gives the block list written into it |
| LogSpec.InstallOthers | xv6A1/log.c:70-82 | installing changes no block outside the list |
| LogSpec.InstallAgree | xv6A1/log.c:70-82 | two installs of one log agree wherever the disks agreed, and on every listed block |
| LogSpec.ReinstallSame | xv6A1/log.c:70-82 | an install stopped anywhere and started over ends with the same home blocks |
| LogSpec.InstallIsApplied | xv6A1/log.c:70-82 | installing puts exactly the logged values on the home blocks |
| LogSpec.CrashWhileCopying | xv6A1/log.c:178-202 | a crash before the header write recovers to the old contents |
| LogSpec.CrashWhileInstalling | xv6A1/log.c:193-202 | a crash from the header write on recovers to the whole transaction |
| LogSpec.CommitAtomic | xv6A1/log.c:178-202 | for each of the 2n+2 block writes of commit, recovery after a crash there gives all or nothing, and which of the two |
| LogSpec.RecoveryRestartable | xv6A1/log.c:116-122 | recovery crashed at any of its block writes recovers to the same home blocks |
| LogSpec.ChainRecovers | xv6A1/log.c:116-122 | so does any chain of crashed recoveries |
| LogSpec.CrashAtomicity | xv6A1/log.c:69-202 | crash commit at any write and recovery any number of times: the recovery that completes leaves the home blocks all as before or all as after, and the log empty |
| Log.Device.Bread | xv6A1/bio.c:96-106 | the log's view of the cache: the cached contents if there are any, else the disk's |
| Log.Device.Bwrite | xv6A1/memide.c:39-60 | one atomic block write, recorded in the trace of disk images |
| Log.CopyRound | xv6A1/log.c:182-189 | one round of write_log keeps cache and log coherent |
| Log.InstallRound | xv6A1/log.c:74-81 | one round of install_trans keeps cache and log coherent |
| Log.Log.constructor | xv6A1/log.c:54-66 | boot leaves the disk recovered, through exactly the images of a recovery |
| Log.Log.InstallTrans | xv6A1/log.c:70-82 | the disk and every intermediate image are those of installing block by block |
| Log.Log.ReadHead | xv6A1/log.c:86-96 | the in-memory list becomes the list in the disk's header |
| Log.Log.WriteHeadBlock | xv6A1/log.c:102-113 | one disk write, whose image has the in-memory list as its header |
| Log.Log.RecoverFromLog | xv6A1/log.c:116-122 | the disk becomes the recovered one, through exactly the images of a recovery |
| Log.Log.LeaveOp | xv6A1/log.c:150-163 | the panic exactly if a commit is under way; the last operation out sets the commit flag, any other wakes the sleepers |
| Log.Log.EndOp | xv6A1/log.c:146-174 | the last operation out commits: home blocks become the applied ones, through exactly the images of commit; the panic happens exactly if a commit is under way; on either way out every sleeper of begin_op is woken |
| Log.Log.WriteLog | xv6A1/log.c:178-190 | the log area gets the cached contents of the listed blocks, image by image |
| Log.Log.Commit | xv6A1/log.c:193-202 | home blocks get the logged contents, the header ends empty, and the disk images passed through are those whose crash safety is proved |
| Log.Log.AppendWrite | xv6A1/log.c:223-232 | the block is pinned with its contents and listed once; the list is overrun exactly if it is full and the block is not on it |
| Log.Log.LogWrite | xv6A1/log.c:214-233 | both halves with nothing between them: when it panics; else the block is pinned with its contents and listed once, and there was a place for it |
| Log.Absorb | xv6A1/log.c:222-230 | absorption adds the block to the list and keeps the list free of repetition |
| GroupCommit.KeepOps | xv6A1/log.c:126-233 | whatever becomes of the disk, every event keeps operations whole with respect to what is committed; end_op never panics |
| GroupCommit.Keep | xv6A1/log.c:126-233 | every event, crash included, keeps the invariant of the log, if the block an append lists has a place |
| GroupCommit.CopiedReads | xv6A1/log.c:182-189 | what write_log has just written reads back, also past the end of the log |
| GroupCommit.CommittedStays | xv6A1/log.c:146-202 | what is committed stays, as a prefix of what is committed later |
| LogSpace.LogSpaceBound | xv6A1/log.c:126-141 | with at most c <= 10 blocks per operation, n plus what is still to come stays within 10 + 2c in every run, whatever the log's size |
| LogSpace.RoomFits | xv6A1/log.c:126-141 | if 10 + 2m blocks fit, a block whose check was passed has a place, however many checks were passed at the same time |
| LogSpace.GroupCommitSafe | xv6A1/log.c:126-233 | if 10 + 2m blocks fit or nothing can be logged, in every state of every run: the disk recovers to whole operations only, reads return the latest writes, the list is not overrun, committing implies no outstanding operation, logged blocks are distinct, an idle log has committed everything, end_op never panics, nobody sleeps in begin_op who could go on |
| LogSpace.RunSleepers | xv6A1/log.c:126-174 | in every run whoever sleeps in begin_op could not be admitted, and an operation or a commit is left to wake it |
| LogSpace.PanicNeedsFullLog | xv6A1/log.c:218-221 | a step panics exactly if it is log_write's check on a full log or a write past the end of the disk |
| LogRace.Reach | xv6A1/log.c:126-141 | two open operations with a and c logged blocks beside n - a - c blocks of finished ones are reachable whenever n is at most 10 + a + c: the bound is attained |
| LogRace.PanicRun | xv6A1/log.c:218-221 | for every log size and m >= 1 with at most 10 + 2m blocks let in, a run that panics |
| LogRace.NoPanic | xv6A1/log.c:214-233 | if 10 + 2m is less than the blocks let in, no run panics |
| LogRace.PanicFreeIff | xv6A1/log.c:126-233 | for every log size: no run panics if and only if 10 + 2m < min(LOGSIZE, size - 1), or nothing is logged; with the log of mkfs, if and only if m < MAXOPBLOCKS |
| LogRace.RaceRun | xv6A1/log.c:218-232 | for every log size and m >= 1 without room: a run in which two log_writes pass the check together, after which the list is overrun or a block that no operation wrote is lost on disk and for readers |
| LogRace.SoundIff | xv6A1/log.c:126-233 | for every log size: all states of all runs are safe if and only if 10 + 2m blocks fit or nothing can be logged; with the log of mkfs, if and only if m < MAXOPBLOCKS |
| LogSteps.CommitRun | xv6A1/log.c:178-202 | the block writes of commit, in the order of the code, are events of the transition system that lead to the image the Log class ends with |
| LogSteps.BootRun | xv6A1/log.c:54-122 | so are those of recovery at boot |
| LogSteps.TracksSound | xv6A1/log.c:54-233 | with room for the reservation, whatever calls were made, the object's disk recovers to the committed operations and its readers see the latest writes |
| LogSteps.Start | xv6A1/log.c:54-66 | initlog begins a run of the transition system in the state the object is in |
| LogSteps.BeginOp | xv6A1/log.c:126-141 | an operation is admitted exactly when the event Begin is possible; otherwise the caller joins the sleepers; either is one event |
| LogSteps.WriteCheck | xv6A1/log.c:218-221 | the unlocked half of log_write is the event Check, and panics exactly when it does |
| LogSteps.WriteAppend | xv6A1/log.c:223-232 | the locked half is the event Append; in a run with room it never overruns the list |
| LogSteps.EndOp | xv6A1/log.c:146-174 | end_op is the event End, followed for the last operation by exactly the events of commit; it never panics |
| LogCache.ViewIsLatest | xv6A1/bio.c:62-106 | for a block nobody is changing, the log's device (valid buffer, else disk) gives the latest contents of the cache model |
| LogCache.ImageStep | xv6A1/bio.c:110-116 | the device's image changes at bwrite, by that buffer, and at no other cache event |
| LogCache.EvictsClean | xv6A1/bio.c:78-91 | a block leaves the cache only by bget's recycling of a clean buffer that agrees with the disk |
| LogCache.SpareLeft | xv6A1/bio.c:78-92 | if the referenced and the dirty buffers are together fewer than NBUF, bget finds a spare one |
| LogBuffers.KeepMove | xv6A1/bio.c:62-141 | every bget, brelse and log event keeps held and dirty blocks in the cache and the log within its reservation |
| LogBuffers.NeverStuck | xv6A1/bio.c:92 | if 10 + 2m + h < NBUF, in no run of log and cache does bget panic |
| LogBuffers.StuckRun | xv6A1/bio.c:92 | otherwise, for every log with room, a run that panics there |
| LogBuffers.BgetFreeIff | xv6A1/bio.c:62-93 | for operations of at most m blocks and h buffers held when one more is asked for: bget never panics if and only if 10 + 2m + h < NBUF |
| Bio.Push | xv6A1/bio.c:50-54 | linking a buffer in at the front gives the list with it in front |
| Bio.Unlink | xv6A1/bio.c:132-133 | the two stores that make its neighbours skip a buffer give the list without it |
| Bio.MoveToFront | xv6A1/bio.c:132-137 | the six stores of brelse keep the list a permutation ordered by latest drop, with the buffer now first |
| Bio.Recycle | xv6A1/bio.c:82-86 | giving an unreferenced clean buffer to an uncached block loses no data |
| Bio.Rewrite | xv6A1/bio.c:96-116 | changing one buffer, with the disk and the latest contents of its block, keeps all others right |
| Bio.Keep | xv6A1/bio.c:62-141 | every call, of whatever process, keeps buffers distinct and right and the references counted |
| Bio.FieldStep | xv6A1/bio.c:62-141 | contents change by a fetch or a store under the lock only, the dirty flag by log_write and bwrite only, the lock and the disk likewise, and one buffer at a time |
| Bio.GetStep | xv6A1/bio.c:62-93 | a cached block's buffer gets one more user; else a spare buffer becomes the block's, not yet read; the disk and all other buffers stay |
| Bio.LatestStep | xv6A1/bio.c:62-141 | the latest contents of a block change when a process unlocks it, and at no other event |
| Bio.CacheSafe | xv6A1/bio.c:62-141 | over every run: no block is in two buffers; what a process reads under the lock is what the last one to unlock the block left; what the disk does not have yet is in a valid buffer that is not spare |
| Bio.Cache.constructor | xv6A1/bio.c:39-56 | the list holds every buffer once, last one first |
| Bio.Cache.Find | xv6A1/bio.c:69-76 | a hit exactly if the block is cached |
| Bio.Cache.FindSpare | xv6A1/bio.c:81-91 | the unreferenced clean buffer whose drop is longest ago; none exactly if there is none |
| Bio.Cache.Bget | xv6A1/bio.c:62-93 | panics exactly if the block is uncached and nothing is spare; else takes a reference, recycling the least recently dropped spare buffer; all buffers stay distinct and right; one event of the cache's runs |
| Bio.Cache.Acquiresleep | xv6A1/bio.c:73 | whoever gets the lock finds the data untouched |
| Bio.Cache.Bread | xv6A1/bio.c:96-106 | the buffer holds the block's latest contents |
| Bio.Cache.Bwrite | xv6A1/bio.c:110-116 | the disk gets the data, the buffer is clean; panics exactly without the lock or out of range |
| Bio.Cache.Store | xv6A1/bio.c:8-14 | only the process with the lock changes the data |
| Bio.Cache.Pin | xv6A1/log.c:231 | the dirty flag keeps the buffer from being recycled |
| Bio.Cache.Releasesleep | xv6A1/bio.c:126 | for a caller that logged or wrote its changes, the data becomes the block's latest contents |
| Bio.Cache.ToFront | xv6A1/bio.c:132-137 | in place: the list stays ordered by latest drop |
| Bio.Cache.Drop | xv6A1/bio.c:128-140 | one reference less; on the last one the buffer moves to the front |
| Bio.Cache.Brelse | xv6A1/bio.c:121-141 | panics exactly without the lock; else lock and reference are given up and the data is the latest |
| FsSpec.AllocDirect | xv6A1/fs.c:379-390 | giving a free block to an empty slot keeps ownership disjoint and changes no file |
| FsSpec.AllocEntry | xv6A1/fs.c:391-397 | the same for an entry of the indirect block |
| FsSpec.FreedNext | xv6A1/fs.c:415-431 | in itrunc's order each slot frees its own block, not freed before |
| FsSpec.PatchFile | xv6A1/fs.c:500-503 | storing into one block of a file changes that block of that file only |
| FsSpec.OverlaidBytes | xv6A1/fs.c:483-512 | block-level effect to byte-level effect: the contents are overwritten at off and extended if needed |
| FsSpec.OtherBytes | xv6A1/fs.c:483-512 | the contents of all other files stay |
| FsSpec.ReadOwnWrite | xv6A1/fs.c:453-512 | what was written reads back, the rest as before |
| FsSpec.OverwriteTwice | xv6A1/file.c:133-152 | writing in chunks is writing at once |
| FsSpec.FilesKept | xv6A1/fs.c:373-401 | block k of every file is there exactly if k < ceil(size/BSIZE) |
| Fs.FileSystem.Balloc | xv6A1/fs.c:57-78 | the first free block, marked and zeroed, both logged; panics exactly if all blocks are in use |
| Fs.FileSystem.Bfree | xv6A1/fs.c:82-96 | clears exactly that bit and logs the map block; panics exactly if it is clear |
| Fs.FileSystem.Iupdate | xv6A1/fs.c:222-237 | the disk copy becomes the memory copy |
| Fs.FileSystem.AllocSlot | xv6A1/fs.c:379-390 | a free block becomes the inode's, ownership exact; fails only on a full disk |
| Fs.FileSystem.AllocIndirectEntry | xv6A1/fs.c:391-397 | the same through the indirect block; every block changed is logged |
| Fs.FileSystem.Bmap | xv6A1/fs.c:374-401 | the block of that index, allocated if absent; a mapped block changes nothing; no file's contents change; every map and data block changed is logged, also before a panic; panics only out of range or on a full disk |
| Fs.FileSystem.Itrunc | xv6A1/fs.c:409-436 | frees exactly the inode's blocks, no bfree panics, ownership stays exact, disk copy updated; every map block changed and the inode are logged, and nothing else |
| Fs.FileSystem.Readi | xv6A1/fs.c:454-477 | exactly the slice of the contents, with the error cases; allocates nothing |
| Fs.FileSystem.WritePart | xv6A1/fs.c:496-505 | one round: one block's bytes, all else kept; the block written and every other block changed are logged, and at most these blocks |
| Fs.FileSystem.Writei | xv6A1/fs.c:483-512 | contents become the old ones overwritten at off, other files untouched, ownership and block map exact, inode written back; every data block, map block and inode changed is logged, and nothing beyond these; error and panic cases exact or bounded by a full disk |
| Fs.LoggedTwice | xv6A1/log.c:205-233 | two steps of an operation that each log what they change together log what they change |
| Fs.FileSystem.WriteChunks | xv6A1/file.c:132-153 | the loop ends with the file as one write of the bytes so far makes it, or with what the device has taken; each transaction has logged all it changed and leaves a prefix of the bytes written on disk |
| Fs.TakenWhole | xv6A1/file.c:135-153 | a device is offered the chunks in order and has taken each one before the last whole |
| Fs.FileSystem.FileWrite | xv6A1/file.c:118-156 | refuses a file not open for writing, hands a pipe on, panics without a type; for a file the chunks amount to one write at the offset and the offset advances by what was written; each chunk is a transaction that logs every block it changes, at most 6 and the bitmap, after which the file on disk holds the chunks so far; for a device, -1 or the panic exactly at the first chunk the driver refuses or takes in part |
| Heap.InsertOrdered | xv6A1/umalloc.c:30-37 | a block put between its neighbours keeps the list sorted and disjoint |
| Heap.Join | xv6A1/umalloc.c:33-42 | merging two touching blocks keeps list, live blocks and the units owned |
| Heap.MergeKeeps | xv6A1/umalloc.c:33-42 | free's header updates keep the ring sorted, linked, disjoint from live blocks, without touching neighbours, every unit accounted for |
| Heap.StopsExactly | xv6A1/umalloc.c:30-32 | free's loop test holds at exactly one block of the ring, the one just below the freed block |
| Heap.TakeWhole | xv6A1/umalloc.c:76-77 | unlinking a block keeps the invariant |
| Heap.TakeTail | xv6A1/umalloc.c:78-82 | cutting the tail off a block keeps the invariant |
| Heap.ScanAll | xv6A1/umalloc.c:74-86 | a walk back to freep has seen every block |
| Heap.Heap.Search | xv6A1/umalloc.c:30-32 | the loop terminates just below the block, from any starting point |
| Heap.MergeRest | xv6A1/umalloc.c:33-42 | free changes no block of the list but the one that takes in the freed block |
| Heap.Heap.Free | xv6A1/umalloc.c:25-44 | exactly that block stops being live; all invariants kept |
| Heap.SbrkGives | xv6A1/sysproc.c:47-58 | the bytes asked for exactly if their number is positive, below the kernel and to be had; otherwise nothing, whatever the answer, and the old memory stays exactly if the number is not negative or reaches below 0 |
| Heap.ArgPositive | xv6A1/umalloc.c:54 | the argument sbrk gets is positive, and then the one meant, exactly below 2^28 units |
| Heap.Heap.Morecore | xv6A1/umalloc.c:47-61 | the piece above the old size joins the list, as its only block large enough if there was none; the heap lies in the process's memory afterwards exactly if what was asked fits an int; without an answer the list stays |
| Heap.Heap.FirstFit | xv6A1/umalloc.c:74-89 | terminates, takes the first block after freep that is large enough, asks sbrk at most once and only when no block fits, and then takes the end of the new piece |
| Heap.UnitsEnough | xv6A1/umalloc.c:69 | the units computed have room for nbytes if and only if rounding up does not wrap |
| Heap.WrapsShort | xv6A1/umalloc.c:69 | for nbytes = 2^32 - 1 the computed size is a bare header |
| Heap.AskedRight | xv6A1/umalloc.c:54-69 | the units computed are enough and sbrk is asked for them if and only if nbytes <= 0x7ffffff0 |
| Heap.AsksForNothing | xv6A1/umalloc.c:54 | for 0xfffffff8 bytes sbrk is asked for 0, for 0x7ffffff1 for -2^31 |
| Heap.Heap.Malloc | xv6A1/umalloc.c:64-90 | a new live block of the computed size, disjoint from all others; the heap stays in the process's memory if and only if a free block fits or what sbrk is asked for fits an int; the block is usable for nbytes if and only if the rounding does not wrap (block from the list) or nbytes <= 0x7ffffff0 (block from sbrk); fails exactly if nothing fits and sbrk fails |
| VmSpec.PteParts | xv6A1/mmu.h:94-101 | an entry gives back its page, its flags and its present bit |
| VmSpec.AddTable | xv6A1/vm.c:41-54 | a new zeroed table leaves the flat view unchanged |
| VmSpec.SetEntry | xv6A1/vm.c:73 | writing an entry changes the flat view at that page only |
| VmSpec.AbsentRange | xv6A1/vm.c:266-268 | an absent directory entry hides 1024 unmapped pages, so jumping equals walking |
| VmSpec.RowMapped | xv6A1/vm.c:105-134 | each row of kmap extends the kernel's view up to the next row |
| VmSpec.KernelPages | xv6A1/vm.c:105-116 | every page the kernel's part maps, its frame, that only text and read-only data are read-only, and that user code gets none |
| VmSpec.CopyFresh | xv6A1/vm.c:325-339 | pages of a copy were free before and differ from each other |
| VmSpec.AllUses | xv6A1/vm.c:105-136 | an address space with n user pages needs 65 + n + ceil(n/1024) pages |
| Vm.Kernel.Kalloc | xv6A1/kalloc.c:82-95 | takes the head of the free list; null exactly if it is empty |
| Vm.Kernel.Kfree | xv6A1/kalloc.c:60-77 | puts a page at the head; panics exactly for a page it does not manage |
| Vm.Kernel.Freerange | xv6A1/kalloc.c:47-53 | frees exactly the whole pages of the range |
| Vm.Kernel.Walkpgdir | xv6A1/vm.c:36-55 | the table of a page, adding one if asked; fails exactly if absent and not to be had; the flat view never changes |
| Vm.Kernel.Mappages | xv6A1/vm.c:61-80 | the flat view gains exactly the range, or a prefix of it when memory ends or a page is mapped already (the panic, exactly then) |
| Vm.Kernel.Deallocuvm | xv6A1/vm.c:256-279 | the flat view page by page without the range, its pages free, nothing else changed, no panic |
| Vm.Kernel.Freevm | xv6A1/vm.c:284-298 | every page of the address space becomes free, no other page changes |
| Vm.Kernel.Setupkvm | xv6A1/vm.c:119-136 | the kernel's mappings and nothing else; fails exactly with fewer than 65 free pages, leaving the free set as it was; no panic |
| Vm.Kernel.Copyuvm | xv6A1/vm.c:316-345 | equal contents and flags on every page below sz, kernel part as specified; fails exactly for lack of pages, leaving the free set as it was; the parent and all other pages untouched |
| VmSpec.LostIff | xv6A1/vm.c:233-246 | giving up keeps the map if and only if nothing of the range was mapped before |
| VmSpec.LosingInput | xv6A1/vm.c:233-246 | an address space without free pages on which giving up loses a mapped page |
| VmSpec.NoneLost | xv6A1/vm.c:233-246 | if nothing of the range was mapped before, giving up restores map, tables and data |
| VmSpec.GrowStuck | xv6A1/vm.c:71-72 | if allocuvm comes to a page mapped already with a page in hand, the free pages covered all that is wanted up to it |
| Vm.Kernel.Allocuvm | xv6A1/vm.c:222-249 | zeroed pages for exactly the new range; fails exactly if pages and missing tables up to the first page mapped already outnumber the free pages, panics exactly if they do not and there is such a page; on failure the range is unmapped, all else as before, every data page free again, and the map is the old one if and only if nothing of the range was mapped |
| ProcSpec.ExitedAt | xv6A1/proc.c:264-280 | what exit does to each slot of the table |
| ProcSpec.WaitExact | xv6A1/proc.c:287-326 | slot by slot: the first zombie child's slot becomes free with pid 0 and no parent; without one the caller goes on if childless or killed and else sleeps on its own entry; every other slot stays |
| ProcSpec.ExitExact | xv6A1/proc.c:261-280 | slot by slot: the caller is a zombie, its children are init's, and awake are its parent in wait and, for a zombie child, init |
| ProcSpec.Lifecycle | xv6A1/proc.c:74-512 | every event moves the state, pid, parent and channel of every slot exactly as the life of a process allows |
| ProcSpec.ReapedOnce | xv6A1/proc.c:287-326 | over every run wait answers each pid at most once |
| ProcSpec.CleanIff | xv6A1/proc.c:494-512 | over every run: no free slot is marked killed if and only if no kill finds its pid in a free slot and no process is killed while a failing fork makes it |
| ProcSpec.BornKilled | xv6A1/proc.c:494-512 | a run in which kill(0) marks a free slot and the next process is born killed |
| ProcSpec.Keep | xv6A1/proc.c:188-326 | every event keeps the invariant of the process table |
| ProcSpec.ExitAndWait | xv6A1/proc.c:188-326 | in every reachable state a started process other than init has a live parent of smaller pid, and nobody sleeps in wait with a zombie child |
| ProcSpec.AllFromInit | xv6A1/proc.c:207-276 | following parents from any started process ends at init |
| Proc.ProcTable.constructor | xv6A1/proc.c:123-161 | boot state: init alone |
| Proc.ProcTable.Wakeup1 | xv6A1/proc.c:472-479 | exactly the sleepers on the channel become runnable |
| Proc.ProcTable.Allocproc | xv6A1/proc.c:74-92 | the first unused slot with a new pid; fails exactly if there is none |
| Proc.ProcTable.Exit | xv6A1/proc.c:242-280 | the loops amount to the specified effect on the table; init exiting panics |
| Proc.ProcTable.PassChildren | xv6A1/proc.c:267-273 | the children of the exiting process become init's, and init is woken exactly if one of them is a zombie |
| Proc.ProcTable.Kill | xv6A1/proc.c:494-512 | the first slot with the pid is marked and not left asleep; fails exactly if there is none |
| Proc.ProcTable.FindZombie | xv6A1/proc.c:294-318 | the loop finds the first zombie child, and whether there are children |
| Proc.ProcTable.Wait | xv6A1/proc.c:287-326 | answers the pid of the first zombie child and frees its slot; -1 without children or when killed; else asleep on its own entry; no other slot changes |
| Barrier.KeepFull | a2/sysproc.c:380-385 | the arrival that fills a round leaves nobody asleep |
| Barrier.BarrierSafe | a2/sysproc.c:369-388 | in every run: nobody returns a k-th time before all have arrived k times, arrivals differ by at most one, the sleepers are exactly the recorded pids |
| Barrier.SomeoneCanMove | a2/sysproc.c:369-388 | never is everybody asleep |
| Barrier.Bar.constructor | a2/sysproc.c:357-365 | an empty barrier for the given participants |
| Barrier.Bar.WakeSleepers | a2/sysproc.c:383-384 | the loop wakes exactly the recorded sleepers |
| Barrier.Bar.Barrier | a2/sysproc.c:369-388 | one call is one event of the machine; when it does not sleep, nobody is left asleep |
| Ring.Push | a2/sysproc.c:39-43 | enque appends exactly if fewer than N-1 are pending, else the ring looks empty |
| Ring.Pop | a2/sysproc.c:45-52 | deque takes the oldest |
| Mailbox.AddSlot | a2/sysproc.c:246-250 | taking a free slot keeps each taken slot in exactly one ring, once |
| Mailbox.DropSlot | a2/sysproc.c:282-287 | so does giving the first one back |
| Mailbox.SendExact | a2/sysproc.c:245-268 | refused without effect exactly if no slot is free; else delivered if and only if fewer than 499 messages are pending; otherwise all are lost |
| Mailbox.RecvExact | a2/sysproc.c:270-302 | one turn of sys_recv: with nothing pending asleep and flagged; else the oldest message is taken, its slot freed and its first byte blanked; nothing else changes |
| Mailbox.Delivery | a2/sysproc.c:237-302 | in every state of a run up to which each send that found a free slot found fewer than 499 pending: sent is received followed by pending, in order; a slot is in exactly one ring exactly if taken; a sleeping receiver has an empty ring and its flag set |
| Mailbox.CrowdedLoses | a2/sysproc.c:39-43 | any other send loses messages |
| Mailbox.FaithfulIff | a2/sysproc.c:237-302 | over every run: nothing is lost, repeated or out of order in any state if and only if each send that found a free slot found fewer than 499 pending |
| Mailbox.OverflowRun | a2/sysproc.c:237-268 | from every initial state 500 sends to one receiver are a run that loses all 500 |
| Mailbox.WakesReceivers | a2/sysproc.c:237-302 | over every run, full rings and wakeups from elsewhere included: sys_send wakes only a process that is in sys_recv; who sleeps there has nothing pending and its flag set |
| Mailbox.Kern.Send | a2/sysproc.c:237-268 | the loop takes the first free slot; -1 exactly if there is none |
| Mailbox.Kern.Recv | a2/sysproc.c:279-300 | the oldest message, or to sleep exactly if there is none |
| Pipe.WrapFull | xv6A1/pipe.c:85 | the fullness test is right also when the counters have wrapped |
| Pipe.Keep | xv6A1/pipe.c:60-121 | every write, read, close, share and kill keeps the bytes in order, the ends open while held, and writers asleep only on a full pipe that someone reads |
| Pipe.HoldersCan | xv6A1/pipe.c:60-75 | a process that is awake and has an end open can close it and no longer has it, or share it with a child that then has it |
| Pipe.StreamSafe | xv6A1/pipe.c:79-121 | over every run: the bytes read are the first of the bytes written, at most 512 behind, and neither is ever taken back |
| Pipe.ReadTakes | xv6A1/pipe.c:101-121 | what a read does: takes min(n, what is there) and wakes the writers; only on an empty pipe open for writing it takes nothing and sleeps or fails |
| Pipe.WritePuts | xv6A1/pipe.c:79-98 | what a write does: puts in what fits; if that is all it wakes the readers; else the pipe is full and it wakes them and sleeps, or fails |
| Pipe.WakesIff | xv6A1/pipe.c:60-121 | exactly which events wake a sleeping reader or writer |
| Pipe.EndOfFile | xv6A1/pipe.c:101-121 | over every run: a read of a byte or more that finishes returns none exactly if the pipe is empty and its write end closed; then nothing is ever written again and all that was written has been read |
| Pipe.MissedIff | xv6A1/pipe.c:85-90 | one step leaves a reader asleep on a pipe with bytes exactly if it is a killed process writing more than 512 bytes past sleeping readers |
| Pipe.NoneMissedIff | xv6A1/pipe.c:79-121 | over every run: no reader is ever left asleep with bytes to read if and only if no such write is made |
| Pipe.MissedRun | xv6A1/pipe.c:85-90 | a run that leaves a reader asleep on a full pipe after the writer has exited |
| Pipe.SleepSafe | xv6A1/pipe.c:60-121 | over every run: sleeping writers have a full pipe and an open reader, sleeping readers an open writer, and readers and writers never sleep at the same time |
| Pipe.PipeBuffer.Put | xv6A1/pipe.c:93 | one byte appended |
| Pipe.PipeBuffer.Get | xv6A1/pipe.c:116 | the oldest byte taken |
| Pipe.PipeBuffer.Write | xv6A1/pipe.c:79-98 | one event of the runs: appends what fits; finishes exactly if that is all, fails exactly if not and killed or nobody reads, and else sleeps |
| Pipe.PipeBuffer.Read | xv6A1/pipe.c:101-121 | one event of the runs: sleeps or fails on an empty pipe still open for writing; else finishes with the next min(n, what is there) bytes written and wakes the writers |
| Pipe.PipeBuffer.Fill | xv6A1/pipe.c:84-94 | the loop puts in the bytes that fit, in order |
| Pipe.PipeBuffer.Drain | xv6A1/pipe.c:113-117 | the loop takes min(n, what is there) bytes |
| Pipe.PipeBuffer.Close | xv6A1/pipe.c:60-75 | one event of the runs: the other side is woken; the pipe is freed exactly when both ends are closed |
| Pipe.PipeBuffer.RingHolds | xv6A1/pipe.c:79-121 | the ring holds what was written and not yet read at the wrapped indices |
| Quorum.MembersCount | a2/maekawa_linux.c:188-205 | a quorum has 2n-1 members |
| Quorum.QuorumsMeet | a2/maekawa_linux.c:193 | any two quorums share a process |
| Maekawa.SimpleQueue.Enque | a2/maekawa_linux.c:35-39 | appends while fewer than 99 are pending |
| Maekawa.SimpleQueue.Deque | a2/maekawa_linux.c:41-48 | the oldest, or -1 exactly if empty |
| Maekawa.InitialGrants | a2/maekawa_linux.c:186-210 | the nested loops grant the first quorum member in row-major order and queue the others in that order |
| MaekawaProof.KeepStep | a2/maekawa_linux.c:217-280 | every step keeps each arbiter's single token in one place |
| MaekawaProof.AtMostOneCritical | a2/maekawa_linux.c:217-264 | two processes in the critical section would hold the same arbiter's token |
| MaekawaProof.MutualExclusion | a2/maekawa_linux.c:186-264 | in every state of every run at most one process is in its critical section |
| MaekawaProof.StuckMeansDone | a2/maekawa_linux.c:188-280 | a state without an enabled step has every process done: no deadlock |
| MaekawaProof.StepDecreases | a2/maekawa_linux.c:217-280 | each step lowers a measure of unsent and undelivered messages |
| MaekawaProof.RunsFinish | a2/maekawa_linux.c:186-280 | runs are bounded, and one that cannot go on has every process done and every mailbox empty |
| MaekawaProof.EveryTurn | a2/maekawa_linux.c:217-264 | in a run that cannot go on every process has taken exactly one step in its critical section |
| MaekawaProof.SectionBetween | a2/maekawa_linux.c:217-264 | the step that completes a process's grants puts it in its critical section, and a release of its own, at whatever arbiter, comes after it has been there |
| Shell.Skip | xv6A1/sh.c:272-273 | the next position that is not white space |
| Shell.WordEnd | xv6A1/sh.c:297-298 | the end of a maximal run of word characters |
| Shell.TokenAt | xv6A1/sh.c:266-308 | tokens lie in order within the buffer; every token but the end is non-empty |
| Shell.LineAt | xv6A1/sh.c:345-359 | the parser moves forward and terminates on every input |
| Shell.LineWords | xv6A1/sh.c:345-446 | every word in a parse is a maximal run of word characters, fewer than MAXARGS per command |
| ShellPrint.ArgsOfWords | xv6A1/sh.c:431-442 | words joined by spaces parse to those words |
| ShellPrint.LineOfPrint | xv6A1/sh.c:345-446 | at any place in a buffer where nothing more can follow, the printed text of a command parses to it |
| ShellPrint.ParseOfPrint | xv6A1/sh.c:328-342 | parsecmd on the fully parenthesised text of a legal command is that command |
| ShellPrint.PrintInjective | xv6A1/sh.c:328-342 | so no two legal commands have the same text |
| ShellLex.Lex | xv6A1/sh.c:266-308 | however tokens are spaced, gettoken finds them |
| ShellLex.Unlex | xv6A1/sh.c:266-308 | every text is its tokens with white space around them, and some between words and between > and > |
| ShellFlat.RedirsOf | xv6A1/sh.c:375-397 | redirections are taken in order up to the next word, with their files and directions |
| ShellFlat.ArgsOf | xv6A1/sh.c:430-445 | words with redirections before, between and after them parse to those words inside the chain of redirections, the first innermost |
| ShellFlat.PipeIs | xv6A1/sh.c:362-372 | a pipeline of any length parses to the right |
| ShellFlat.LineIs | xv6A1/sh.c:345-359 | & takes the whole pipeline before it, ; splits last and to the right |
| ShellFlat.ParseOfFlat | xv6A1/sh.c:328-446 | every legal command line, however spaced, parses to its meaning; followed by more, as in a & b, it is refused for leftovers |
| ShellFlat.FlatOfParse | xv6A1/sh.c:328-446 | every text that parses is a legal command line, spaced, and the tree is its meaning: with ParseOfFlat, exactly the language of sh.c |
| ShellFaults.RefusedFor | xv6A1/sh.c:328-446 | a refused text has the fault it is refused for: a redirection without a file, a parenthesis after a word, MAXARGS words, a parenthesis, or something after a whole line |
| ShellParser.GetToken | xv6A1/sh.c:266-308 | the loops compute the token function |
| ShellParser.PeekToken | xv6A1/sh.c:311-320 | the loop computes peek and the skipped cursor |
| ShellParser.ParseRedirs | xv6A1/sh.c:375-397 | the loop computes the redirections |
| ShellParser.ParseExec | xv6A1/sh.c:416-446 | the loop computes the simple command with its redirections |
| ShellParser.ParseBlock | xv6A1/sh.c:400-413 | computes the parenthesised command |
| ShellParser.ParsePipe | xv6A1/sh.c:362-372 | computes the pipeline |
| ShellParser.ParseLine | xv6A1/sh.c:345-359 | computes the line |
| ShellParser.WordsRead | xv6A1/sh.c:450-493 | after the NULs are in place each word read as a C string is its token |
| ShellParser.Nulterminate | xv6A1/sh.c:450-493 | a NUL at the end of each word and no other change |
| ShellParser.ParseCmd | xv6A1/sh.c:328-342 | the parse, and every word of it readable as a C string from the buffer |

## Left out

- Hardware code (disk ports, interrupt controllers, serial line, keyboard, display, boot, assembly): the kernel logic meets it as an array of blocks written one at a time.
- Spinlock internals and memory ordering: locks are given, and a lock hold is the grain of a step.
- Signals (`checkTraps`, `proc_sigsend`, `proc_sigret`) and the older mailbox code in `xv6A1/sysproc.c`.
- Killed processes in the barrier model, the exit of a killed process on its way back to user space, and `growproc`.
- Directories, path names, link counts, `ialloc`, the inode cache and `exec`.
- Device drivers: what one answers is a parameter of `filewrite`, and an outcome of its own in `readi` and `writei`.
- The Jacobi programs and the message-queue barrier of `a2/maekawa_linux.c`; the barrier counts as passed.
- `runcmd`, the user utilities, `printf`, tracing and `sys_add`.
- `loaduvm`, `uva2ka` and `copyout`, which only look up the page map and move bytes; `clearpteu`, which clears one flag; `inituvm`, which maps one page at boot through `mappages`; TLB effects.
- Log: a write in the list beyond its last entry is an outcome; what it overwrites is not modelled.
- Log.Log.LogWrite: nothing comes between its two halves; the interleavings are those of `GroupCommit.dfy`.
- Fs.FileSystem.WriteChunks: no other process writes the file between two chunks, each of which is a transaction and a hold of the inode lock of its own; with such writes each chunk is one write at its offset, as `Fs.FileSystem.Writei` states.
- Fs.FileSystem.FileWrite: the same holds for its chunks.
- Fs: the superblock, bitmap, inode and data regions are separate fields instead of ranges of one disk; buffers are block values changed in place.
- Bio: buffers and list pointers are sequences held in fields of the cache object; a pointer is an index, the list head the last one. A process unlocks a buffer only after logging or writing what it changed, as every caller in the kernel does.
- Vm: `kmem.freelist` is a sequence, not links inside the free pages; physical and virtual pages are named by page number; `data` is a parameter; `mappages` is given a page-aligned physical address, as in every call.
- Heap: addresses count header units, and the process size is a multiple of 8; other code of the process may call `sbrk` only to grow.
- ProcSpec: pids do not wrap at 2^31; the scheduler picks any runnable process.
- Maekawa: the first P1 processes take part in the protocol and jump over the critical section itself; they count as in it while they hold all their grants.
- Barrier: exactly `num_procs` participants with different pids, none killed. No wakeup comes from elsewhere on their channels: `sys_send` wakes only processes in `sys_recv` (`Mailbox.WakesReceivers`), and no other wakeup in `a2/sysproc.c` uses a pid as its channel.
- Mailbox: pids from 1 to NPROC-1, as the arrays demand.
