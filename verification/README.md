# A verified model of four operating-system exercises

This project models the four components of the repository that carry state: the copy-on-write
thread-local storage (`Challenge4/tls.c`), the user-level thread library
(`Challenge2/threads.c`), the single-disk file system (`Challenge5/fs.c` over
`Challenge5/disk.c`) and the shell's pipeline parser (`Challenge1/myshell_parser.c`).
`dafny verify dfyconfig.toml` checks all of it.

Each component has two layers. The classes run the way the C code runs: global arrays, aliased
pages with reference counts, linked lists, scan loops and blocks overwritten in place. Every
method of theirs is proved to do to the state what a function on plain values says. The second
layer proves what those functions mean, for every input and over every run.

| files | content |
|---|---|
| `Common.dfy` | bytes, splicing, C-string length |
| `TlsPages.dfy`, `TlsModel.dfy`, `Tls.dfy` | page ownership; the map from threads to byte strings; the library on shared pages |
| `ThreadModel.dfy`, `ThreadRuns.dfy`, `ThreadTheorems.dfy`, `ThreadOutcomes.dfy`, `ThreadWitnesses.dfy` | the steps of the library; the invariant of every run; what it guarantees threads; what each call does and returns; runs in which it fails its intent |
| `WaitList.dfy`, `Threads.dfy`, `ThreadCalls.dfy` | the linked wait queues; the library on its global arrays; whole runs on them |
| `FsCodec.dfy`, `FsBitmap.dfy`, `FsModel.dfy` | metadata and index blocks as bytes; the block bitmap; the calls as functions |
| `FsRuns.dfy`, `FsView.dfy`, `FsTheorems.dfy`, `FsWitnesses.dfy` | the invariant of every run; refinement of a map from names to files; isolation, persistence, accounting; runs in which it fails its intent |
| `FsLayout.dfy`, `FsReplies.dfy` | the bytes of block 0 and of an index block; what each call answers and what the answers tell |
| `FileSystem.dfy`, `FsCalls.dfy` | the disk and the file system on arrays; sequences of calls on them |
| `ParserModel.dfy`, `Parser.dfy` | the character machine, the printer and the round trip; the parser building its linked list |

## Main results

* **Thread-local storage.** Over any sequence of calls the shared, reference-counted pages behave
  as a map from threads to byte strings in which a clone is a deep copy, replies included
  (`Tls.RefinesDeepCopy`). The invariant says that each count is the number of slots that point
  at the page and that pages are shared at equal indices only. Every copy into or out of a page
  demands that the page is open, the whole-page copies of copy-on-write included, and calls leave
  the pages closed.
* **Threads.** In every reachable state a thread is blocked exactly when it stands in one place of
  one pending queue; mutexes exclude and hand over in blocking order; a ready thread that waits for
  its turn runs within as many calls of `schedule` as there are threads; a barrier round releases on exactly the arrival
  that completes the count given to `pthread_barrier_init`, and exactly its first call returns the serial value (`pthread_barrier_wait()`, section 3 of the System Interfaces volume
  of POSIX.1-2017).
* **File system.** Over any sequence of calls the program sees a map from names to files and a table
  of handles, replies included (`FsCalls.PerformAll`, `FsTheorems.RefinesSimple`); isolation is
  proved of that map, and every byte read is the one last written to its place since the file was
  created, or zero (`FsTheorems.ReadsLastWritten`). No block is
  shared, free blocks are blank and counted, and unmounting and mounting loses nothing but the
  descriptors. The superblock locates the arrays in block 0 after every run, down to the bit of each block
  (`FsLayout.SuperblockLocates`, `FsLayout.BitmapOnDisk`).
* **Parser.** Parsing the text of a pipeline, however it is laid out, gives it back exactly when no
  word stands after a redirect, and gives a known other pipeline otherwise; the error flags go up exactly at the first misplaced `&` or repeated redirect.

## Where the code departs from its intent

The model follows the code. Each departure below is a property with its exact condition and a
concrete input or run on which it fails.

* A page-crossing `tls_write` copies the string in its buffer instead of `length` bytes
  (`TlsModel.WritesWhatWasAsked`; a concrete buffer and run in `TlsModel.ZeroByteCutsWrite`).
* Unlocking a mutex nobody waits for leaves it claimed by nobody, for good
  (`ThreadTheorems.UnlockOrphansIdleMutex`, `ThreadTheorems.OrphanedForever`; a concrete run in
  `ThreadWitnesses.LockAndUnlockOrphans`).
* The owner field of a mutex is not updated on hand-over (`ThreadOutcomes.OwnerNamesHolderIff`; a concrete run in
  `ThreadWitnesses.OwnerGoesStale`).
* When the last worker exits, a blocked main runs again while still queued
  (`ThreadTheorems.MainResumedOutOfQueue`; a concrete run in `ThreadWitnesses.BlockedMainIsResumed`).
* A write at offset 4096 or beyond lands in block 0 and is lost (`FsTheorems.ReadAfterWrite`; a run in
  `FsWitnesses.LostByteRun`).
* Overwriting counts bytes twice: the size is the total length written (`FsTheorems.ReportsTotalWritten`) and stays
  where the furthest write ended exactly when every write appends (`FsTheorems.AlwaysExtentIff`; a run in
  `FsWitnesses.OverwriteRun`).
* A failed create leaks two blocks: `FsTheorems.CreateSucceedsIff` says when one fails, and
  `FsTheorems.CreateMarksTwo` and `FsTheorems.BlocksConserved` what it costs (a run in `FsWitnesses.LeakRun`).
* A word after a redirect is joined to the path instead of being an argument
  (`ParserModel.ParseInvertsPrint`; the line `cat < in out` in `ParserModel.SecondWordIsLost`).

## Model

| member | source | states |
|---|---|---|
| TlsPages.SoleOwner | Challenge4/tls.c:196-196 | a page whose count is 1 is pointed at by the writer's slot and by no other |
| TlsPages.PrivatiseOwners | Challenge4/tls.c:202-210 | copy-on-write takes exactly one owner from the shared page, gives the new page exactly that owner, leaves all other pages' owners and keeps sharing at equal indices |
| TlsPages.CloneGainsOwner | Challenge4/tls.c:587-592 | cloning a row gives each of its pages exactly one more owner, given that pages are shared at equal indices only |
| TlsPages.CloneKeepsOwners | Challenge4/tls.c:587-592 | cloning leaves the owners of all other pages |
| TlsPages.CreateOwners | Challenge4/tls.c:360-369 | the pages of a new storage have one owner each and no other page gains or loses one |
| TlsPages.SpliceChunk | Challenge4/tls.c:243-243 | writing inside one page changes that page of the storage string and no other |
| TlsModel.Isolation | Challenge4/tls.c:471-549 | over any run, calls of other threads never change a thread's bytes, failing writes included |
| TlsModel.CloneIsDeepCopy | Challenge4/tls.c:551-599 | after a clone, cloner and original keep the string of that moment whatever the other side does |
| TlsModel.ReadAfterWrite | Challenge4/tls.c:419-549 | after a successful write and any calls of other threads, the read of the bytes it stored is admissible, succeeds and returns them |
| TlsModel.WritesWhatWasAsked | Challenge4/tls.c:471-549 | whatever the storage holds, the call stores the `length` bytes asked for, or refuses a range that does not fit, exactly when it stays in one page or the string in its buffer has that length or is refused as that length is |
| TlsModel.ZeroByteCutsWrite | Challenge4/tls.c:150-152 | from the empty table on: in a storage just created, a page-crossing write of 200 bytes whose second byte is zero reports success and stores one byte |
| TlsModel.CreateOutcome | Challenge4/tls.c:328-374 | a create returns 0 exactly for a positive size and a thread without storage; the storage is then the fewest whole pages that hold the size, all zero; a refused create changes no storage |
| TlsModel.CloneOutcome | Challenge4/tls.c:551-599 | a clone returns 0 exactly when the caller has no storage and the target has one, and copies its bytes; a refused clone changes no storage |
| TlsModel.ReadOutcome | Challenge4/tls.c:419-469 | a read returns 0 exactly when the caller has a storage and the range ends inside it, with the bytes of that range, and changes no storage |
| TlsModel.WriteOutcome | Challenge4/tls.c:471-549 | a write returns 0 exactly when the caller has a storage that `length`, and for a page-crossing range the string in the buffer, does not overrun; which bytes it replaces is given position by position |
| TlsModel.CrossesIs | Challenge4/tls.c:447-449 | a range crosses a page end exactly when its first and last byte lie in different pages |
| Tls.ScanPages | Challenge4/tls.c:152-182 | the dry run accepts exactly the ranges that end inside the storage |
| Tls.RoundUp | Challenge4/tls.c:50-68 | the page count is the least that holds the size: the size divided by the page size, rounded up |
| Tls.CopyPage | Challenge4/tls.c:214-218 | the whole-page copy of copy-on-write demands that both pages are open and makes them equal |
| Tls.TlsLibrary.constructor | Challenge4/tls.c:103-118 | the zero-initialised table satisfies the invariant and stands for the empty map |
| Tls.TlsLibrary.FindIndex | Challenge4/tls.c:120-148 | finds the slot of a known thread, otherwise hands out the next empty slot and prepares its successor |
| Tls.TlsLibrary.CopyOnWrite | Challenge4/tls.c:491-512 | replaces a shared page by a private writable copy, copied while both are open, keeping the invariant and every storage string |
| Tls.TlsLibrary.WriteByte | Challenge4/tls.c:186-249 | one round of the copying loop turns pages at the page end, privatises and opens the next, closes the last, and extends the written prefix by one byte |
| Tls.TlsLibrary.WritePages | Challenge4/tls.c:184-251 | the copying loop writes exactly the given range across pages swapped by copy-on-write, and ends with all pages closed |
| Tls.TlsLibrary.BoundaryWrite | Challenge4/tls.c:150-254 | rejects exactly the ranges that do not fit, leaving the first page open; otherwise splices the string into the storage |
| Tls.TlsLibrary.ReadPages | Challenge4/tls.c:291-322 | byte k comes from page (offset+k)/4096 at position (offset+k)%4096, and all pages end closed |
| Tls.TlsLibrary.BoundaryRead | Challenge4/tls.c:257-325 | rejects exactly the ranges that do not fit, otherwise copies the range out |
| Tls.TlsLibrary.Create | Challenge4/tls.c:328-374 | returns 0 exactly for a positive size and a thread without storage, and the table is then that of `TlsModel.CreateOutcome` |
| Tls.TlsLibrary.Clone | Challenge4/tls.c:551-599 | returns 0 exactly when the caller has no storage and the target has one; the caller's storage becomes the target's string, sharing pages and counting each new owner |
| Tls.TlsLibrary.Write | Challenge4/tls.c:471-549 | splices exactly the written bytes into the caller's string and changes no other; success ends with all pages closed, a failing crossing write leaves open exactly its first page |
| Tls.TlsLibrary.Read | Challenge4/tls.c:419-469 | returns the asked range of the caller's string and changes nothing; same protection discipline |
| Tls.RefinesDeepCopy | Challenge4/tls.c:328-599 | every sequence of calls on aliased pages equals the run on the deep-copy map, state and replies |
| ThreadModel.Hops | Challenge2/threads.c:124-133 | the number of places the search moves: every slot before is not runnable, the slot there is |
| ThreadModel.ReadyAll | Challenge2/threads.c:394-399 | exactly the listed threads become ready |
| ThreadRuns.LockKeepsQueues | Challenge2/threads.c:225-271 | locking keeps the blocked threads and the queue entries equal as multisets |
| ThreadRuns.UnlockKeepsQueues | Challenge2/threads.c:273-304 | unlocking keeps them equal, handing over or not |
| ThreadRuns.ArriveKeepsQueues | Challenge2/threads.c:348-402 | a barrier arrival keeps them equal, blocking or releasing |
| ThreadRuns.StepKeepsInv | Challenge2/threads.c:91-498 | every step of the library keeps the invariant |
| ThreadRuns.RunKeepsInv | Challenge2/threads.c:91-498 | every run keeps the invariant, up to the exit of the last worker |
| ThreadTheorems.BlockedIffQueuedOnce | Challenge2/threads.c:238-263 | a thread is blocked exactly when it stands in a pending queue, and then in one place only |
| ThreadTheorems.ReachedThreads | Challenge2/threads.c:91-142 | in every reachable state that holds, at most one thread runs, it is the current one and the scheduler stands on it |
| ThreadTheorems.SchedulerChoice | Challenge2/threads.c:95-137 | the first runnable slot cyclically after the current one is taken, the current one last; the search ends within one turn exactly when some slot is runnable |
| ThreadTheorems.TurnComesNearer | Challenge2/threads.c:100-137 | one step leaves a waiting thread ready, and a `schedule` that does not pick it shortens its cyclic distance |
| ThreadTheorems.Fairness | Challenge2/threads.c:91-142 | with no creation in between, a ready thread other than the current one stays ready until it runs, within at most as many further `schedule` calls as there are threads, over every run |
| ThreadTheorems.FairnessToCurrent | Challenge2/threads.c:91-142 | a thread that is ready and current, as main is before its first `schedule`, runs again within one call more than there are threads, counted from that `schedule` |
| ThreadTheorems.MutualExclusionAndFifo | Challenge2/threads.c:225-304 | at most one holder per mutex, and hand-overs happen in exactly the blocking order |
| ThreadTheorems.UnlockOrphansIdleMutex | Challenge2/threads.c:281-288 | an unlock leaves the mutex claimed by nobody exactly when its queue is empty |
| ThreadTheorems.OrphanedForever | Challenge2/threads.c:225-304 | nobody obtains such a mutex again and its queue only grows |
| ThreadTheorems.BarrierRound | Challenge2/threads.c:306-415 | in every run, with the count given to `pthread_barrier_init`: no call returns before that many arrivals, arrivals are distinct and only they return, the first value returned is PTHREAD_BARRIER_SERIAL_THREAD, -1, and all others are 0 |
| ThreadTheorems.LastArrivalReleases | Challenge2/threads.c:306-402 | in every run, exactly the arrival that completes the count given makes every queued thread ready; an earlier one only blocks its caller |
| ThreadTheorems.ExitAccounting | Challenge2/threads.c:468-498 | an exit marks its caller, main included, and counts workers; exit(0) is reached exactly when every other thread had exited, main is resumed exactly when it is the only one left, otherwise another thread runs |
| ThreadTheorems.ExitSchedules | Challenge2/threads.c:484-486 | after an exit that goes on, the nearest runnable thread other than the caller runs |
| ThreadTheorems.ExitedForever | Challenge2/threads.c:91-498 | over every run a thread that has exited stays exited, main included from the first creation on |
| ThreadTheorems.RunRecords | Challenge2/threads.c:306-415 | the counts, arrivals and returns the claims speak of are those of the calls in the run |
| ThreadTheorems.OneSerialValue | Challenge2/threads.c:404-414 | over every run, of the values the barrier's calls return only the first is the serial one |
| ThreadOutcomes.CreateOutcome | Challenge2/threads.c:417-466 | a creation makes the next slot ready, main too if it is the first, and runs nobody |
| ThreadOutcomes.MutexInitOutcome | Challenge2/threads.c:193-206 | one more mutex, free and with an empty queue |
| ThreadOutcomes.LockOutcome | Challenge2/threads.c:225-271 | a free mutex goes to the caller, who is its owner and runs on; otherwise the caller blocks at the end of that queue; nothing else changes |
| ThreadOutcomes.UnlockOutcome | Challenge2/threads.c:273-304 | the first waiting thread is made ready and holds the mutex, the owner field as it was; with nobody waiting the owner becomes 149311 and the mutex stays claimed |
| ThreadOutcomes.BarrierInitOutcome | Challenge2/threads.c:306-328 | a count of zero returns 22 and changes nothing; otherwise one more barrier with that count and nobody arrived |
| ThreadOutcomes.ReturnOutcome | Challenge2/threads.c:404-414 | returning from a barrier changes no thread, queue or count |
| ThreadOutcomes.RunAddsUp | Challenge2/threads.c:417-443 | there are as many threads beside main, and as many mutexes, as the run created |
| ThreadOutcomes.FreeUntilLocked | Challenge2/threads.c:225-288 | over every run, a mutex can be claimed exactly until somebody has locked it |
| ThreadOutcomes.OwnerNamesHolderIff | Challenge2/threads.c:225-304 | over every run, the owner field names the holder exactly when the mutex was never handed over or was last handed to the thread it names |
| ThreadTheorems.MainResumedOutOfQueue | Challenge2/threads.c:488-495 | resuming main keeps the queues in step exactly when main was not blocked |
| ThreadWitnesses.LockAndUnlockOrphans | Challenge2/threads.c:273-288 | creating a thread and locking and unlocking a new mutex reaches a state in which nobody holds it and nobody can |
| ThreadWitnesses.BlockedMainIsResumed | Challenge2/threads.c:468-495 | a run in which main blocks on the worker's mutex and the worker exits: main runs and is still queued |
| ThreadWitnesses.OwnerGoesStale | Challenge2/threads.c:290-298 | a run after which main holds the mutex and its owner field names the worker |
| WaitLists.WaitList.Append | Challenge2/threads.c:242-263 | walking to the tail and linking a node appends to the sequence |
| WaitLists.WaitList.Pop | Challenge2/threads.c:290-298 | moving the head on removes the first element and returns it |
| WaitLists.WaitList.ReleaseInto | Challenge2/threads.c:394-399 | the release loop makes ready exactly the listed threads |
| Threads.ThreadLibrary.constructor | Challenge2/threads.c:76-86 | the zero-initialised globals stand for the initial state |
| Threads.ThreadLibrary.NextRunnable | Challenge2/threads.c:124-133 | the search loop around the ring ends at the scheduler's pick and stays within the slots |
| Threads.ThreadLibrary.Schedule | Challenge2/threads.c:91-142 | switches to that pick |
| Threads.ThreadLibrary.Create | Challenge2/threads.c:417-466 | a new ready thread; the first creation also makes main ready |
| Threads.ThreadLibrary.MutexInit | Challenge2/threads.c:193-206 | a free mutex with an empty queue and the next id |
| Threads.ThreadLibrary.MutexLock | Challenge2/threads.c:225-271 | claims a free mutex, otherwise blocks the caller at the tail of its queue and of no other |
| Threads.ThreadLibrary.MutexUnlock | Challenge2/threads.c:273-304 | hands the mutex to the head of its queue, or abandons it |
| Threads.ThreadLibrary.BarrierInit | Challenge2/threads.c:306-328 | a barrier of the given count, or EINVAL for 0 |
| Threads.ThreadLibrary.BarrierArrive | Challenge2/threads.c:348-402 | blocks the caller or releases the whole queue |
| Threads.ThreadLibrary.BarrierReturn | Challenge2/threads.c:404-414 | tests and clears the serial flag |
| Threads.ThreadLibrary.Exit | Challenge2/threads.c:468-498 | marks and counts the exit, then schedules, resumes main or ends |
| ThreadCalls.Play | Challenge2/threads.c:91-498 | every run, played on the arrays and lists, returns the values of its calls and ends in the state the run leads to |
| FsCodec.WordRoundTrip | Challenge5/fs.c:327-329 | a 32-bit word is what its four bytes say |
| FsCodec.MetaRoundTrip | Challenge5/fs.c:277-295 | decoding an encoded superblock, bitmap, inode table and directory gives them back, whatever the unused end of the block holds; the encoding fits in a block |
| FsCodec.IndexBlockEntries | Challenge5/fs.c:402-404 | read 32 bits wide, the index block written 16 bits wide lists its data block and then zeros |
| FsLayout.SuperblockLocates | Challenge5/fs.c:182-186 | after every run from a newly made file system, the superblock holds 6, 1030 and 1414, and on a closed disk the bitmap, inode and directory bytes are at those offsets of block 0 |
| FsLayout.MakePlaces | Challenge5/fs.c:174-249 | the block 0 a make writes holds the fresh metadata where its superblock says; all other blocks are zero |
| FsLayout.BitmapOnDisk | Challenge5/fs.c:155-172 | block k is marked exactly when bit k % 8 of byte 6 + k / 8 of block 0 is set |
| FsLayout.InodeOnDisk | Challenge5/fs.c:17-21 | inode i takes six bytes from 1030 + 6i on: flag, padding, index block and size, low bytes first |
| FsLayout.EntryOnDisk | Challenge5/fs.c:23-27 | entry e takes twenty bytes from 1414 + 20e on: flag, padding, inode number, fifteen name bytes, padding |
| FsLayout.IndexOnDisk | Challenge5/fs.c:372-424 | an index block starts with the data block's number, then zeros up to byte 512 |
| FsBitmap.OneBitChanges | Challenge5/fs.c:155-172 | writing a bit changes that bit of the 8192 and no other |
| FsBitmap.FirstClear | Challenge5/fs.c:128-153 | the least clear bit, or -1 exactly when there is none |
| FsBitmap.MarkedChange | Challenge5/fs.c:161-171 | setting a clear bit adds one to the number of marked blocks, clearing a set one takes one away |
| FsBitmap.TwoFound | Challenge5/fs.c:376-382 | find, mark, find gives two different blocks, both clear before |
| FsModel.FindInode | Challenge5/fs.c:51-64 | the first unused inode, or -1 when all are used |
| FsModel.Lookup | Challenge5/fs.c:66-111 | the last entry carrying the name, or -1 when none does |
| FsModel.FindFD | Challenge5/fs.c:113-126 | the first unused descriptor, or -1 when all are used |
| FsModel.TextOfCopied | Challenge5/fs.c:418-418 | the name array reads back as the string copied into it |
| FsRuns.MakeEstablishesInv | Challenge5/fs.c:174-249 | a newly made disk satisfies the invariant whatever was on it |
| FsRuns.MountKeepsInv | Challenge5/fs.c:251-304 | mounting keeps the invariant |
| FsRuns.UnmountKeepsInv | Challenge5/fs.c:306-368 | unmounting moves the invariant into block 0 |
| FsRuns.ContentsFree | Challenge5/fs.c:719-719 | changing a marked block that is no file's index block keeps ownership, accounting and every file's data block |
| FsRuns.CreateOutcome | Challenge5/fs.c:370-431 | a create either marks two blocks and nothing else, or also fills a free inode, a free entry and an index block; and exactly when it fails |
| FsRuns.CreatedConsistent | Challenge5/fs.c:376-431 | a successful create keeps ownership, directory and accounting |
| FsRuns.LeakKeepsConsistent | Challenge5/fs.c:376-400 | a failed create leaks two marked blocks and keeps everything else |
| FsRuns.OneBlockListed | Challenge5/fs.c:520-541 | the loop of a delete releases the data block and stops |
| FsRuns.DeleteOutcome | Challenge5/fs.c:476-567 | a delete refuses missing and open files and otherwise blanks and unmarks the file's two blocks and resets its inode and entry |
| FsRuns.RemovedConsistent | Challenge5/fs.c:520-566 | a delete keeps ownership, directory and accounting |
| FsRuns.BlockForIs | Challenge5/fs.c:686-700 | an access falls in the file's data block below offset 4096 and in block 0 beyond |
| FsRuns.NotAnIndex | Challenge5/fs.c:719-719 | no write reaches an index block |
| FsRuns.WrittenConsistent | Challenge5/fs.c:719-731 | writing a file's data block or block 0 and changing its size keeps ownership, directory and accounting |
| FsRuns.WriteKeepsInv | Challenge5/fs.c:657-738 | a write keeps the invariant |
| FsRuns.StepKeepsInv | Challenge5/fs.c:174-833 | every call keeps block ownership, blank free blocks, directory consistency, sound descriptors and the accounting |
| FsRuns.RunKeepsInv | Challenge5/fs.c:174-833 | so does every run of calls |
| FsView.FullTogether | Challenge5/fs.c:398-400 | free inodes, free entries and the 64 files of the map run out together |
| FsView.OpenAgrees | Challenge5/fs.c:433-456 | open returns the least unused descriptor, at offset 0, on the file of that name |
| FsView.CreateAgrees | Challenge5/fs.c:370-431 | create adds one blank, empty file to the map, or fails, and changes no other file or handle |
| FsView.DeleteAgrees | Challenge5/fs.c:476-567 | delete removes one file nobody has open, or fails, and changes no other file or handle |
| FsView.ReadAgrees | Challenge5/fs.c:569-655 | read returns the file's bytes at the handle's offset and moves the handle on |
| FsView.WriteAgrees | Challenge5/fs.c:657-738 | write changes exactly the written range of that one file, its size and the handle |
| FsView.SeekAgrees | Challenge5/fs.c:796-833 | seek moves one handle, or fails outside 0..size |
| FsView.SizeAgrees | Challenge5/fs.c:740-754 | the size reported is that of the handle's file |
| FsView.CloseAgrees | Challenge5/fs.c:458-474 | close frees one descriptor |
| FsView.UnmountAgrees | Challenge5/fs.c:306-368 | unmounting keeps every file and closes every handle |
| FsView.CallAgrees | Challenge5/fs.c:174-833 | every call does to the view what the simple file system does, replies included |
| FsTheorems.RefinesSimple | Challenge5/fs.c:174-833 | over every run the replies and the final view are those of the simple file system |
| FsReplies.ReplyIs | Challenge5/fs.c:174-833 | the code of every call but `fs_open` is 0, the count or size, or -1 under conditions on mount, names, handles and sizes written out with the constants 14, 32, 64 and 4096 |
| FsReplies.OpenReply | Challenge5/fs.c:433-456 | `fs_open` succeeds exactly on an existing name with a descriptor left, and returns the least one |
| FsReplies.OpenDiskRefuses | Challenge5/fs.c:208-268 | on an open disk a make blanks every block and fails, and a mount fails and leaves the disk |
| FsReplies.RunTells | Challenge5/fs.c:251-833 | over every run, mount state, a file's existence and a descriptor's file and offset are those the calls and their codes tell |
| FsReplies.StateIsTold | Challenge5/fs.c:174-833 | the same for the running file system from any newly made disk |
| FsTheorems.SparedFile | Challenge5/fs.c:370-833 | a call that does not write through a handle on a file, create, delete or remake it leaves its bytes and size |
| FsTheorems.SparedOverRun | Challenge5/fs.c:370-833 | every run of such calls leaves the file's bytes and size |
| FsTheorems.LastWriteWins | Challenge5/fs.c:370-738 | over every run, byte k of a file is the byte of the last write that covered k since the file's create, or zero; with neither in the run it is the byte it had |
| FsTheorems.ReadsLastWritten | Challenge5/fs.c:569-655 | after any run from a newly made file system, `fs_read` returns bytes exactly when its offset lies below the size and below 4096, and each is the one last written to its place since the file's create, or zero |
| FsTheorems.ReadAfterWrite | Challenge5/fs.c:569-738 | with no other write to the file in between (FsTheorems.ReadsLastWritten has the general case), written bytes are read back through any descriptor exactly when they were written below offset 4096 and start below the new size |
| FsTheorems.SizeIsTotalWritten | Challenge5/fs.c:731-731 | over every run, a file's size is the total length of the writes to it since its create, modulo 2^16 |
| FsTheorems.ReportsTotalWritten | Challenge5/fs.c:740-754 | after any run from a newly made file system, `fs_get_filesize` returns that total, or -1 for a descriptor that is not open |
| FsTheorems.SizeIsExtentIff | Challenge5/fs.c:731-731 | one call keeps the size at the furthest end of a write exactly when it is no write to the file or appends to it within 16 bits |
| FsTheorems.AlwaysExtentIff | Challenge5/fs.c:657-738 | over every run, the size is at every point the furthest end of a write exactly when every write to the file appends within 16 bits |
| FsWitnesses.LostByteRun | Challenge5/fs.c:174-738 | a run from any closed disk that fills a file, writes a byte at offset 4096 and reads nothing there |
| FsWitnesses.OverwriteRun | Challenge5/fs.c:174-754 | a run from any closed disk that writes and overwrites one byte and is told the size 2 |
| FsWitnesses.LeakRun | Challenge5/fs.c:376-400 | a run from any closed disk that creates a file twice: the second create fails, there is one file, and five blocks are marked |
| FsTheorems.Persistence | Challenge5/fs.c:251-368 | unmounting and mounting restores superblock, bitmap, inodes, directory and every file, with all descriptors closed |
| FsTheorems.BlocksOwned | Challenge5/fs.c:386-424 | index and data block of a used inode are marked, non-zero, different and shared with no other file; the index block lists the data block and then zero |
| FsTheorems.BlocksStayOverRun | Challenge5/fs.c:370-738 | a file keeps its two blocks as long as it lives, across unmounting too |
| FsTheorems.CreateMarksTwo | Challenge5/fs.c:376-384 | a create marks exactly the first two clear blocks, whether it succeeds or not |
| FsTheorems.DeleteClearsTheTwo | Challenge5/fs.c:514-550 | the delete of a file clears exactly the two blocks its create marked, after any run in between |
| FsTheorems.BlocksConserved | Challenge5/fs.c:174-550 | after every run unmarked blocks are blank and 1 + 2*(files) + 2*(failed creates) blocks are marked |
| FsTheorems.EntriesAndInodes | Challenge5/fs.c:408-419 | names are unique, and named entries and used inodes correspond one to one |
| FsTheorems.CreateSucceedsIff | Challenge5/fs.c:386-400 | a create succeeds exactly when mounted, with a short enough new name and fewer than 64 files |
| FsTheorems.CreatedIsFound | Challenge5/fs.c:402-424 | after a create the directory leads from the name to a fresh inode with a blank, empty file |
| FileSystems.DiskDevice.MakeDisk | Challenge5/disk.c:19-45 | every block of a new disk is zero |
| FileSystems.DiskDevice.BlockWrite | Challenge5/disk.c:86-109 | replaces one whole block of an open disk, or fails and changes nothing |
| FileSystems.DiskDevice.BlockRead | Challenge5/disk.c:111-134 | returns one whole block of an open disk, or fails |
| FileSystems.FileSystem.FindDirectory | Challenge5/fs.c:66-111 | one pass finds the entry of a name, or the first free entry for a new one |
| FileSystems.FileSystem.FindUsedBlocksBit | Challenge5/fs.c:128-153 | the scan over words and bits finds the least clear bit |
| FileSystems.FileSystem.WriteUsedBlocksBit | Challenge5/fs.c:155-172 | masks one bit of one word in or out |
| FileSystems.FileSystem.MakeFs | Challenge5/fs.c:174-249 | a blank disk whose block 0 holds the fresh metadata |
| FileSystems.FileSystem.MountFs | Challenge5/fs.c:251-304 | loads the arrays from block 0 |
| FileSystems.FileSystem.UmountFs | Challenge5/fs.c:306-368 | stores the arrays in block 0 and clears them |
| FileSystems.FileSystem.FsCreate | Challenge5/fs.c:370-431 | arrays, disk and result after the call are those whose meaning FsView.CreateAgrees states, failures and leaked blocks included |
| FileSystems.FileSystem.FsOpen | Challenge5/fs.c:433-456 | takes the least unused descriptor for an existing name, or fails and changes nothing |
| FileSystems.FileSystem.FsClose | Challenge5/fs.c:458-474 | resets one used descriptor, or fails and changes nothing |
| FileSystems.FileSystem.ReleaseListed | Challenge5/fs.c:520-541 | the loop blanks and unmarks the listed blocks up to the first zero entry |
| FileSystems.FileSystem.FsDelete | Challenge5/fs.c:476-567 | refuses a missing or open file; otherwise blanks and unmarks its blocks and resets its inode and entry, as FsRuns.DeleteOutcome spells out |
| FileSystems.FileSystem.FsRead | Challenge5/fs.c:569-655 | returns the bytes at the descriptor's offset from the block the index block lists and moves the offset on, nothing else |
| FileSystems.FileSystem.FsWrite | Challenge5/fs.c:657-738 | overwrites that range of that one block, adds to offset and size modulo 2^16, nothing else |
| FileSystems.FileSystem.FsLseek | Challenge5/fs.c:796-833 | sets the offset to a value in 0..size, or fails and changes nothing |
| FileSystems.FileSystem.FsGetFilesize | Challenge5/fs.c:740-754 | returns the size in the inode of an open descriptor |
| FsCalls.PerformAll | Challenge5/fs.c:174-833 | any sequence of calls on the running file system returns what the simple one returns and leaves its view |
| ParserModel.FeedCommand | Challenge1/myshell_parser.c:51-168 | reading the text of one command and closing it gives the command as heard, in either order of its redirects, with words before, between and after them and any spacing |
| ParserModel.HeardAsIs | Challenge1/myshell_parser.c:147-168 | a command is heard as it is, and its words as its arguments, exactly when no word stands after a redirect |
| ParserModel.ParseHears | Challenge1/myshell_parser.c:21-196 | parsing the text of a pipeline gives every command as heard and raises no error, `&` sets the background flag |
| ParserModel.ParseInvertsPrint | Challenge1/myshell_parser.c:21-196 | parsing the text of a pipeline gives it back, and its words as arguments, exactly when no command has a word after a redirect |
| ParserModel.SecondWordIsLost | Challenge1/myshell_parser.c:147-168 | `cat < in out` gives the one argument `cat` and the input path `inout` |
| ParserModel.StopsAtFirstOffence | Challenge1/myshell_parser.c:68-106 | the error flags go up exactly at the first `&` that is not last and the first repeated `<` or `>`, whichever is first; otherwise the background flag says whether a `&` was read |
| ParserModel.OffenceEndsParse | Challenge1/myshell_parser.c:68-106 | the first offence ends the parse with the commands read up to there, the last as far as it was read |
| ParserModel.FeedLater | Challenge1/myshell_parser.c:147-168 | words after spaces are arguments outside a redirect and are joined to the path inside one |
| ParserModel.NothingPending | Challenge1/myshell_parser.c:170-178 | the last character the parser reads of a complete line is not a bar |
| Parsers.PipelineCommand.Terminate | Challenge1/myshell_parser.c:110-128 | NULL ends the words read, and a path not filled becomes NULL |
| Parsers.PipelineCommand.CharacterInsert | Challenge1/myshell_parser.c:250-272 | the letter goes to the end of the word or of the path being read |
| Parsers.Scanner.Pipe | Challenge1/myshell_parser.c:108-145 | a bar finishes the command, links a new one behind it and resets the positions |
| Parsers.Scanner.Space | Challenge1/myshell_parser.c:147-158 | a space starts a new argument only after a filled one and outside a redirect |
| Parsers.PipelineBuild | Challenge1/myshell_parser.c:21-196 | the linked list built is the result of the character machine, and the flags are its stops |
| Parsers.BuildPrinted | Challenge1/myshell_parser.c:21-196 | the list built from the text of a pipeline holds its commands as heard, so the pipeline itself when no word stands after a redirect, and no flag is raised |

## Left out

Thread-local storage

- `tls_destroy`: its body is commented out and it only returns 0.
- The fault handler and its registration, and the printed messages.
- Races between calls: each call is one atomic step, as under one lock.
- Offsets at or past the end of the storage: the code indexes its page array without a check.
- Page-crossing buffers without a terminating zero, which `strlen` would run past.
- Tls.RoundUp: the float quotient is a real number, so sizes beyond 2^24, where floats round, are not modelled.
- Tls.TlsLibrary.FindIndex: requires a free slot and thread ids other than 0 and -1, because the code consumes a slot on every miss and uses those ids as marks.

Threads

- Contexts, stacks, signals and timers: a context switch is a change of current thread, and an alarm is a `schedule` step between any two steps.
- An alarm that strikes inside `pthread_exit` or between the test and the clear of the serial flag.
- ThreadTheorems.Fairness: speaks of threads other than the current one. `ThreadTheorems.FairnessToCurrent` covers main, which is ready and current before the first `schedule`; it may act and block before that.
- Threads.ThreadLibrary.MutexInit: initialising a mutex that is already initialised, which leaves its old queue behind, is not modelled.
- ThreadCalls.Play: runs with at most 128 mutexes and 128 barriers, the lengths of the list and count arrays, which the code does not check. The 0 that `pthread_mutex_lock` returns once its caller goes on is not among the values.
- ThreadTheorems.BarrierRound: one round per barrier, because the list of a released round is never cleared.
- ThreadRuns.StepKeepsInv: runs end when the last worker exits; what main does afterwards is not modelled.
- Threads.ThreadLibrary.Create: successful creations only, at most 127 workers, because the count is raised before the check.
- Threads.ThreadLibrary.Schedule: requires a runnable thread, since the search does not end without one.
- The destroy functions, which only free list nodes.

File system

- Host files behind the disk: blocks are an array, a disk always exists, and host errors do not occur.
- `fs_listfiles` and `fs_truncate` (marked as not done in the source).
- FsRuns.StepKeepsInv: making or mounting while mounted, descriptors outside 0..31, empty names, names of exactly 15 characters (one byte too long for the array), a disk with fewer than two free blocks at a create, and accesses across a block end are outside the calls considered.
- FileSystems.FileSystem.FsCreate: requires a name that is not of exactly 15 characters, whose copy runs one byte past the name array.
- Files beyond their first block: the code never gives a file a second block, and index entries from 128 on are whatever lay behind the 512-byte array.
- Padding bytes of the C structs are zero in block 0, and descriptor offsets are unbounded numbers.

Parser

- `myshell.c`: processes, pipes and the prompt.
- Buffer limits and string termination: a buffer is the sequence of characters put into it, and a command can have any number of words.
- Parsers.PipelineBuild: lines without a newline are outside, because only an error keeps the loop from running past their end, and so are lines that are empty or end in `|`, because their redirect pointers are never set; the background flag without `&` keeps an arbitrary value, which is a parameter. The local variables of `pipeline_build` are the fields of `Scanner`.
- `pipeline_free`, which only frees the list.
