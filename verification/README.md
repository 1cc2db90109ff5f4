# File locking, buffers, quota, mounts and pipes of a 2.4 kernel, in Dafny

This project models the parts of the repository's `kernel/src/fs` and `kernel/src/ipc` whose
correctness spans many steps: shared lists edited in place, tasks that sleep in the middle of
an operation, and counters that have to agree with structures elsewhere. Each component has a
functional model with the theorems about it, and a class whose loops and assignments follow the
C code and are proved equal to that model, so that the theorems hold of the imperative form.

| component | model | imperative form |
|---|---|---|
| POSIX record locks (`fs/locks.c`) | `PosixLocks`, `LockEdit`, `LockSafety`, `LockRefinement`, `PosixLockFile`, `WaitGraph`, `LockSystem`, `LockGrants`, `LockRuns`, `LockCalls`, `LockWakes`, `LockGhost` | `LockTable` |
| page reads and partial writes (`fs/buffer.c`) | `PageRead`, `PageCollect`, `PageWrite` | methods in the same modules |
| disk quota usage (`fs/dquot.c`) | `Quota`, `QuotaGrants`, `QuotaConservation`, `QuotaLimits` | `QuotaTable` |
| dquot cache (`fs/dquot.c`) | `DquotCache`, `DquotSteps`, `DquotRuns`, `DquotGets`, `DquotOff`, `DquotDirty` | `DquotTable` |
| mount tree (`fs/namespace.c`) | `MountTree`, `MountEdit`, `MountCopy`, `MountForest` | `MountTable` |
| synthetic files (`fs/seq_file.c`) | `SeqText` | `SeqFile` |
| pipes (`fs/pipe.c`) | `PipeStream`, `PipeWake` | `Pipe` |
| directory cache (`fs/dcache.c`) | `DentryTree` | `Dcache` |
| IPC identifiers (`ipc/util.c`, `ipc/util.h`) | `IpcIds` | `IpcTable` |

`Lists` holds the list primitives, and `Common` the small definitions, that several of them share.

## How concurrency is modelled

A state machine has one step for each stretch of code between two points where it may sleep or
where another processor may interleave: `locks_block_on` for locks, the buffer state bits and
the handler's locked section for page reads, `pipe_wait` for pipes, disk reads and writes and
memory allocation for dquots. A run is any finite sequence of enabled steps of any number of
tasks. Results of calls into code outside the model (`get_block`, disk reads, limit
capabilities, signals, memory) are parameters of the steps, and the theorems hold for all of
them.

## Where the code does not do what it is for

In eight places the property one expects holds only under a condition. Each is proved with its
exact condition, and with an instance where it fails.

* `posix_lock_file` computes `caller->fl_end + 1` (`fs/locks.c:923`). For a request that ends at
  the largest offset the sum wraps, and the loop stops in front of a lock of the same type that
  it should merge with. `CanonicalIff` and `ByteMapIff` say exactly when the list stays
  canonical and the byte map is right, `RunsRefineIff` says it for whole runs, and
  `WrapCounterexample` is an instance. Mutual exclusion, wake-ups and deadlock detection do not
  depend on it. The wrap is that of two's complement.
* After such a request, cutting a record can leave one whose end lies below its start. It covers no
  byte, and yet the conflict tests see it. `GrantedIff`: a request goes through exactly when nobody
  else holds a byte of its range against it and no such record lies across it, which cannot happen
  before a request has met the wrapped end. `GhostCounterexample` is a run of five requests after
  which another owner is refused bytes that are free.
* `block_read_full_page` skips a buffer whose `get_block` fails and goes on, and when nothing is
  left to read it marks the page up to date at once. `PageShowsFileIff`: a page marked up to date
  shows the bytes of the file in every block exactly when no lookup failed.
  `LookupCounterexample` is a page of one block.
* Nothing on the way of a page read clears PG_error, so a read that is repeated after a failure
  (`mm/filemap.c:1447-1449`) leaves the page not up to date although every buffer has come in.
  `CompletesOnce` has the exact condition, `StaleErrorCounterexample` the instance.
* `__block_prepare_write` maps new blocks before they are filled and does not undo it when a later
  block fails, so that old disk bytes become part of the file. `Page.Write` and
  `PreparedBackedIff` say exactly when, `ExposureCounterexample` is an instance.
* `seq_read` doubles a buffer that is too small without setting `count` back
  (`fs/seq_file.c:90-96`), and delivers memory nobody printed into. `ReadExactIff` gives the exact
  condition, `GrowthCounterexample` an instance, and `EndOfFileIff` the condition under which a
  read of an unfinished file reports its end.
* A quota passes its hard limit exactly when a caller with CAP_SYS_RESOURCE charges it there
  (`RunsKeepLimitsIff`, with the run `MixedCallers`), and a counter moves with its inodes exactly
  when it never has to stick at zero (`RunConservesIff`, with `ShortCounterexample`).
* `d_move` does not test all it needs: `MoveKeepsIff` says that the cache stays in order exactly
  when neither entry is below the other, of which `is_subdir` answers one half.
  `RenameCounterexample` is a rename that passes that half.

## Model

| member | source | states |
|---|---|---|
| `PosixLockFile.ApplyRefines` | kernel/src/fs/locks.c:903-1017 | for a canonical list and a request not stopped by the wrapped end, every byte of every owner holds afterwards exactly what fcntl() is specified to leave, and the list is canonical again |
| `PosixLockFile.CanonicalIff` | kernel/src/fs/locks.c:907-1017 | locks of one owner stay contiguous, sorted, disjoint and maximal exactly when a request to the largest offset meets no lock of its own owner and type |
| `PosixLockFile.ByteMapIff` | kernel/src/fs/locks.c:903-1017 | the byte map is the specified one exactly when no lock of the other type follows a lock that the wrapped end makes the loop miss |
| `PosixLockFile.WrapCounterexample` | kernel/src/fs/locks.c:923-924 | a read lock on bytes 5 to 9, then one from 0 to the largest offset, leaves two overlapping records |
| `LockSafety.ApplyGrants` | kernel/src/fs/locks.c:903-1017 | whatever the list, an edit gives the caller at most the requested type inside the requested range and leaves every other owner's bytes alone |
| `LockSafety.ApplyKeeps` | kernel/src/fs/locks.c:931-985 | a record whose waiters are not woken survives with its identity, owner and type and at least its old range |
| `LockSafety.ApplyIds` | kernel/src/fs/locks.c:993-1017 | the two records allocated in advance are used at most once each, so identities stay unique |
| `LockRefinement.WalkRefines` | kernel/src/fs/locks.c:914-1017 | from any point of the loop over the caller's locks, the rest of the walk ends in an ordered run whose bytes are the request laid over what was there |
| `WaitGraph.EdgeClosesCycle` | kernel/src/fs/locks.c:656-682 | adding the edge from a waiter to the owner of its blocker closes a cycle exactly when the waiter is reachable from that owner |
| `LockRuns.StepKeepsInv` | kernel/src/fs/locks.c:853-1029 | every set, retry, signal and close keeps: exclusive lists, unique records, every waiter linked to a record that conflicts with it, one wait per task, no circle of waits |
| `LockRuns.RunsAreSafe` | kernel/src/fs/locks.c:554-568 | under any interleaving no byte is write-locked by one owner while another holds anything on it, every sleeping request conflicts with the record it is linked to, and the waits-for graph is acyclic |
| `LockRuns.StepCarries` | kernel/src/fs/locks.c:390-451 | a waiter leaves the blocked list only by a signal to its task, or to scan again |
| `LockRuns.NoLostWakeUp` | kernel/src/fs/locks.c:404-451 | take any request that sleeps in a reachable state and any further run without a signal to its task: once nothing conflicts with the request, the task is off the blocked list and about to scan again |
| `LockRuns.GrantedIff` | kernel/src/fs/locks.c:875-895 | in every reachable state F_SETLK goes through exactly when it is F_UNLCK, or no other owner holds a write lock on a byte of the range, nor, for a write lock, any lock, and no record without bytes lies across it; there is no such record unless a request has met the wrapped end |
| `LockRuns.DeadlockExact` | kernel/src/fs/locks.c:885-892 | in every reachable state a call that may sleep goes through exactly under that condition, and says EDEADLK exactly when sleeping on the first record in its way would close a cycle |
| `LockCalls.GrantedExact` | kernel/src/fs/locks.c:875-1017 | a call that may have its bytes is answered at once; other files and the bytes of other owners are as they were |
| `LockCalls.RefusedExact` | kernel/src/fs/locks.c:879-893 | a call that meets a record in its way: EAGAIN without waiting, EDEADLK when its sleep would close a cycle, neither changing anything, and otherwise its task sleeps on the first such record and nothing else has changed |
| `LockCalls.RetryGranted` | kernel/src/fs/locks.c:876-895 | a task that wakes and may have its bytes gets them and is through |
| `LockCalls.RetryRefused` | kernel/src/fs/locks.c:876-895 | one that may not sleeps again on the first record in its way, or gives up exactly when that would close a cycle |
| `LockCalls.SignalExact` | kernel/src/fs/locks.c:607-614 | a signal takes the task off the blocked list and touches no other task and no lock |
| `LockGrants.NoConflictIff` | kernel/src/fs/locks.c:534-568 | on any list the conflict scan finds nothing exactly when the bytes of the range are free of what excludes the request, owner by owner, and no record without bytes lies across it |
| `LockGhost.GhostCounterexample` | kernel/src/fs/locks.c:1014-1016 | five requests of one owner, two of them to the largest offset, leave a write lock that covers no byte, and another owner is refused a read lock on bytes that are free |
| `LockWakes.ApplyWakesIff` | kernel/src/fs/locks.c:931-1023 | the waiters of a record are woken by an edit exactly when no record is left with its identity, owner and type and at least its range |
| `LockWakes.WakesIff` | kernel/src/fs/locks.c:431-451 | whatever happens, short of a signal to its task, a waiter goes on sleeping exactly when the record it sleeps on stands as it was or has grown |
| `LockRuns.CloseExact` | kernel/src/fs/locks.c:1659-1688 | a close removes every lock of that files table on the inode and no other byte of any owner |
| `LockRuns.RunsRefineIff` | kernel/src/fs/locks.c:841-1017 | over whole runs: lists are canonical throughout exactly when no completed request to the largest offset meets an own lock of its type, and then the next completed call changes the byte map as specified exactly when the wrap leaves no lock of the other type behind |
| `LockGrants.PosixTestLock` | kernel/src/fs/locks.c:626-640 | finds nothing exactly when the bytes of the range are free of what excludes the request and no record without bytes lies across it, and otherwise returns the first record of another owner in the way |
| `LockRuns.GetAgreesWithSet` | kernel/src/fs/locks.c:534-568 | F_GETLK finds nothing exactly when F_SETLK would not say EAGAIN, and otherwise finds the record that F_SETLK stops at; for F_UNLCK, which F_SETLK never refuses, it finds what F_RDLCK would stop at; both answers by the bytes other owners hold |
| `LockTable.LockTable.WakeUpBlocks` | kernel/src/fs/locks.c:431-451 | every waiter of the record leaves the blocked list and will retry, all others stay in order |
| `LockTable.LockTable.PosixLocksDeadlock` | kernel/src/fs/locks.c:656-682 | the walk from task to task ends and answers whether the caller is reachable from the holder in the waits-for graph |
| `LockTable.LockTable.SameType` | kernel/src/fs/locks.c:917-945 | the branch for a lock of the requested type does what one step of the functional walk does, through the alias of the caller |
| `LockTable.LockTable.OtherType` | kernel/src/fs/locks.c:946-985 | the same for the branch for a lock of another type |
| `LockTable.LockTable.WalkOwnLocks` | kernel/src/fs/locks.c:912-991 | the loop over the caller's locks, with its slot, alias, left and right, computes the functional walk and wakes exactly its records |
| `LockTable.FinishList` | kernel/src/fs/locks.c:993-1017 | the insertion, the split and the two shrinks after the loop, with positions moved by the insertion, give the list of the functional form |
| `LockTable.LockTable.PosixLockFile` | kernel/src/fs/locks.c:875-1017 | scan, refusal, sleep or edit: equals the step of the state machine, keeps its invariant, and goes through exactly when the bytes of the range allow it and no record without bytes lies across it |
| `LockTable.LockTable.LocksRemovePosix` | kernel/src/fs/locks.c:1659-1688 | the loop that starts over after every deletion equals the close step and keeps the invariant |
| `PageRead.CompletesOnce` | kernel/src/fs/buffer.c:756-810 | for any number of buffers, none included, and any interleaving of reader and handlers the page is unlocked at most once, only after every handler has left its section, with every buffer read showing the bytes on disk unless its read failed, and is then up to date exactly when there was nothing to read, or no read failed and PG_error was not set already |
| `PageRead.StaleErrorCounterexample` | kernel/src/fs/buffer.c:800-801 | a page with PG_error left over, whose one buffer is read without error, is unlocked but not up to date |
| `PageRead.NeverStuck` | kernel/src/fs/buffer.c:756-810 | as long as the page is locked some step is enabled, unless the reader waits for a buffer locked by somebody else |
| `PageRead.RunsAreFinite` | kernel/src/fs/buffer.c:756-810 | no run has more than seven steps per buffer, or one step when there is nothing to read, so the unlock comes |
| `PageRead.LockingFirstIsNeeded` | kernel/src/fs/buffer.c:1792-1801 | with a reader that submits each buffer as soon as it has locked it, any page with two buffers to read has a run that unlocks it as up to date while the second buffer is untouched, and a run that unlocks it twice |
| `PageCollect.CollectBuffers` | kernel/src/fs/buffer.c:1757-1780 | a buffer is queued exactly when it is not up to date and is mapped, or is inside the file and gets mapped without being filled; before any I/O it becomes up to date only if get_block filled it, it is a hole or it lies past the file, and then shows the bytes of the file |
| `PageCollect.PageShowsFileIff` | kernel/src/fs/buffer.c:1735-1804 | a page unlocked as up to date, whether or not anything was left to read, shows in every block what is on disk, zeroes in holes and past the file, exactly when no block lookup failed |
| `PageCollect.BufferShowsFile` | kernel/src/fs/buffer.c:1735-1804 | the same for each buffer: it shows the bytes of the file unless its own lookup failed, and then is not up to date |
| `PageCollect.LookupCounterexample` | kernel/src/fs/buffer.c:1782-1790 | a page of one block whose lookup fails is marked up to date and unlocked with its buffer unread |
| `PageRead.ScanRing` | kernel/src/fs/buffer.c:786-791 | the scan around the ring finds a busy buffer exactly when there is one besides its own |
| `PageWrite.PreparedBlock` | kernel/src/fs/buffer.c:1618-1686 | a prepared and filled block shows the file's bytes wherever the write will not put its own, zeroes in a new block |
| `PageWrite.WrittenBlock` | kernel/src/fs/buffer.c:1688-1726 | after prepare, copy and commit an up-to-date block shows the old bytes overlaid by the written ones |
| `PageWrite.PreparedBackedIff` | kernel/src/fs/buffer.c:1645-1672 | a prepared block is still backed by memory or disk exactly when it is not a new block whose place on disk holds other bytes than the file |
| `PageWrite.ExposureCounterexample` | kernel/src/fs/buffer.c:1649-1661 | a hole of one block, written in part, is mapped onto old disk bytes before it is filled |
| `PageWrite.Page.SubmitReads` | kernel/src/fs/buffer.c:1636-1673 | the loop brings every block to its prepared state and never waits for more than two reads, whatever the block size |
| `PageWrite.Page.PrepareWrite` | kernel/src/fs/buffer.c:1618-1686 | says yes exactly when every block the write meets can be prepared, and then leaves each as its own preparation and read do |
| `PageWrite.Page.CommitWrite` | kernel/src/fs/buffer.c:1688-1726 | blocks met by the write become up to date and dirty; the page becomes up to date exactly when no block is left that is not |
| `PageWrite.Page.Write` | kernel/src/fs/buffer.c:1618-1726 | succeeds exactly when every block it meets has a place on disk or gets one, and can be read where it has to be; on success everything marked up to date shows the old file overlaid by the data, blocks it did not meet are untouched, and the new file is backed again; on failure up-to-date memory shows the old file, which is still backed exactly when no block prepared before the failure was exposed |
| `PageWrite.Page.WriteAll` | kernel/src/fs/buffer.c:1618-1726 | after any series of writes up to the first failure, what is up to date shows the file with the completed writes in their order; the page can go on when none failed or free blocks hold zeroes |
| `Quota.RefusalChangesNothing` | kernel/src/fs/dquot.c:1021-1053 | NO_QUOTA leaves every usage counter and every inode as it was |
| `Quota.ChargeExact` | kernel/src/fs/dquot.c:1039-1044 | a charge goes to exactly the quotas attached to the inode, once each |
| `Quota.ReleaseExact` | kernel/src/fs/dquot.c:1095-1110 | a release goes to exactly the quotas attached to the inode, once each |
| `Quota.MoveExact` | kernel/src/fs/dquot.c:1185-1206 | a quota loses and gains in the round of its own type only, loses first, and by amounts that stick at zero |
| `QuotaGrants.TransferGrantedIff` | kernel/src/fs/dquot.c:1169-1184 | a transfer is granted exactly when every quota that gets the inode has room for one inode and for its blocks, said over its limits, usage, deadlines and the exemption of the caller |
| `QuotaGrants.TransferExact` | kernel/src/fs/dquot.c:1185-1206 | usage and grace periods of every quota after a granted transfer: what gives loses first, not below zero, and ends a grace period that is over; what gets starts one that has to start |
| `QuotaConservation.StepConservesIff` | kernel/src/fs/dquot.c:1021-1218 | for every operation and every state: a counter moves exactly with the inodes attached to it, exactly when the call is refused or the counter, and the inode, have what is taken |
| `QuotaConservation.RunConservesIff` | kernel/src/fs/dquot.c:1021-1218 | over any run the counter moves with its inodes throughout exactly when no completed release or transfer finds it short |
| `QuotaConservation.ShortCounterexample` | kernel/src/fs/dquot.c:661-671 | a counter at zero does not move when its inode gives back a block |
| `QuotaConservation.StepConserves` | kernel/src/fs/dquot.c:1021-1218 | with counters that cover their inodes and callers that give back no more than the inode has, every operation changes every counter exactly as the sum over its inodes, and they still cover them |
| `QuotaConservation.RunConserves` | kernel/src/fs/dquot.c:1021-1218 | the same over any run |
| `QuotaConservation.TransferKeepsTotalsIff` | kernel/src/fs/dquot.c:1136-1218 | a transfer keeps the totals of blocks and of inodes of a quota type exactly when it is refused or the quota that gives has what it gives |
| `QuotaGrants.AllocGrantedIff` | kernel/src/fs/dquot.c:746-816 | an allocation is granted exactly when every attached quota is fake or asked for nothing, or has its hard limit absent, kept or waived and its soft limit absent, kept, not yet timed, not yet expired or waived, and no preallocation would start a grace period |
| `QuotaGrants.AllocExact` | kernel/src/fs/dquot.c:746-816 | a granted allocation charges each attached quota and ends a grace period it starts at now plus the period; a refused one starts those of the quotas asked before the one that said no, and changes nothing else |
| `QuotaGrants.FreeExact` | kernel/src/fs/dquot.c:637-671 | a release lowers every attached counter, not below zero, and ends the grace period exactly when usage is below the soft limit |
| `QuotaLimits.RunsKeepLimitsIff` | kernel/src/fs/dquot.c:741-816 | over any run, whoever calls, a quota stays under its hard limits exactly when no exempt caller charges it above one of them |
| `QuotaLimits.StepHardIff` | kernel/src/fs/dquot.c:741-816 | a caller that is not exempt never leaves a quota it has charged above its hard limit, and a quota passes its limit exactly when an exempt caller takes it there |
| `QuotaLimits.MixedCallers` | kernel/src/fs/dquot.c:741-789 | nine of ten blocks in use: the user is refused two, a privileged caller gets them, and then the user is refused one |
| `QuotaLimits.RunsKeepGraceIff` | kernel/src/fs/dquot.c:759-813 | over any run a quota above its soft limit has its grace period running throughout exactly when no transfer from it to itself crosses the limit |
| `QuotaLimits.GraceIsOver` | kernel/src/fs/dquot.c:791-798 | once the grace period of an attached quota is over, no further blocks above the soft limit are granted to a caller that is not exempt |
| `QuotaLimits.StepTimedIff` | kernel/src/fs/dquot.c:1192-1196 | no step leaves a quota above a soft limit without its grace period running, except a granted transfer from it to itself that crosses the limit, which always does |
| `QuotaTable.QuotaTable.DquotAllocBlock` | kernel/src/fs/dquot.c:1021-1053 | check loop, then charge loop: the step of the model, granted exactly when every attached quota has room |
| `QuotaTable.QuotaTable.DquotAllocInode` | kernel/src/fs/dquot.c:1058-1090 | the same for inodes |
| `QuotaTable.QuotaTable.DquotFreeBlock` | kernel/src/fs/dquot.c:1095-1110 | the release loop is the step of the model |
| `QuotaTable.QuotaTable.DquotFreeInode` | kernel/src/fs/dquot.c:1115-1129 | the same for inodes |
| `QuotaTable.QuotaTable.DquotTransfer` | kernel/src/fs/dquot.c:1136-1218 | check loop, then the loop that moves usage and references: the step of the model, granted exactly when every receiving quota has room |
| `DquotRuns.CacheIsSound` | kernel/src/fs/dquot.c:333-541 | in every reachable state: dq_count is inode references plus in-flight holders, one dquot per user or group of a file system, nr_free_dquots is the length of the free list, freed dquots have no holder and held ones are alive, and what an inode refers to is known and unlocked |
| `DquotRuns.StepKeeps` | kernel/src/fs/dquot.c:333-541 | every section between two sleeps keeps the invariant, including a get that finds its dquot hashed by somebody else meanwhile |
| `DquotRuns.TransferExact` | kernel/src/fs/dquot.c:1169-1216 | when the check of every kind that changes and that the inode has says yes, the inode gets the new dquot and both local arrays hold the old one, to be released twice; otherwise inode and new reference stay |
| `DquotGets.DqgetReturns` | kernel/src/fs/dquot.c:479-524 | whatever other tasks do while it sleeps, dqget comes back with the dquot of the user or group asked for, alive, held and read in, or with nothing, and then quota was off at some point of the call; the caller keeps its other references |
| `DquotGets.PruneExact` | kernel/src/fs/dquot.c:394-409 | exactly the last n dquots of the free list are freed, or all of them, and no other dquot is touched |
| `DquotOff.DqgetWhileOff` | kernel/src/fs/dquot.c:485-490 | with quota off throughout, dqget comes back with nothing |
| `DquotOff.ScanFrees` | kernel/src/fs/dquot.c:338-358 | what the invalidation meets goes at once if nobody uses it, and no other dquot does; otherwise the task waits for it |
| `DquotOff.UnuseFrees` | kernel/src/fs/dquot.c:346-358 | the dquot waited for goes, and no other, exactly when its last user has gone |
| `DquotOff.InvalidatedForGood` | kernel/src/fs/dquot.c:330-360 | once invalidate_dquots has ended there is no dquot of the quota in any state for as long as the quota stays off |
| `DquotDirty.NoChangeIsLost` | kernel/src/fs/dquot.c:421-456 | once a task has marked a dquot with DQ_MOD, in every later state of any run in which nobody has written it, it is still marked, alive, held and on no free list |
| `DquotDirty.StaysDirty` | kernel/src/fs/dquot.c:362-456 | no step of any task but write_dquot takes the mark away or frees a marked dquot |
| `DquotDirty.SyncReachesDisk` | kernel/src/fs/dquot.c:362-391 | when sync_dquots is through with a dquot that was marked, somebody has written it |
| `DquotSteps.GetKeeps` | kernel/src/fs/dquot.c:479-524 | one section of dqget keeps the invariant: it takes a hit off the free list, or hashes a spare dquot that nobody else can know |
| `DquotSteps.PutKeeps` | kernel/src/fs/dquot.c:421-456 | one section of dqput keeps the invariant: the last reference puts a clean dquot on the free list unless it is being invalidated |
| `DquotSteps.ScanKeeps` | kernel/src/fs/dquot.c:338-358 | what invalidate_dquots meets is marked by nobody else, and is freed at once only when unused |
| `DquotSteps.UnuseKeeps` | kernel/src/fs/dquot.c:346-358 | the dquot it waited for is still there, is freed once and by nobody else |
| `DquotSteps.PruneKeeps` | kernel/src/fs/dquot.c:394-409 | pruning frees only dquots without holders that no invalidation waits for, and touches no reference |
| `DquotSteps.SyncStarts` | kernel/src/fs/dquot.c:362-391 | the bare dq_count++ of sync_dquots only ever meets a dquot that has a holder already |
| `DquotSteps.DuplicateKeeps` | kernel/src/fs/dquot.c:526-541 | a duplicate of an inode's reference is never refused |
| `DquotTable.DquotTable.DqGet` | kernel/src/fs/dquot.c:479-513 | the code of dqget between two sleeps is that section |
| `DquotTable.DquotTable.DqPut` | kernel/src/fs/dquot.c:421-456 | the code of dqput between two sleeps is that section |
| `DquotTable.DquotTable.PruneDqcache` | kernel/src/fs/dquot.c:394-409 | the loop frees from the tail of the free list as the model does |
| `DquotTable.DquotTable.DquotTransfer` | kernel/src/fs/dquot.c:1167-1206 | the two loops that must not sleep equal the model; on NO_QUOTA no inode reference has changed |
| `MountTree.NextExact` | kernel/src/fs/namespace.c:126-140 | the mount after a node is the next one in pre-order, and there is none exactly after the last |
| `MountTree.KidsLater` | kernel/src/fs/namespace.c:126-140 | children come after their parent in the walk, so in the reversed list before it |
| `MountForest.TreeExists` | kernel/src/fs/namespace.c:126-140 | in any table with child lists in step with parent links that never lead back, the mounts below any mount form a tree without repetition |
| `MountForest.WalkIsComplete` | kernel/src/fs/namespace.c:126-140 | the walk misses no mount at or below its root |
| `MountEdit.DetachKeeps` | kernel/src/fs/namespace.c:106-115 | lists stay in step with parents, and d_mounted of every dentry stays the number of mounts attached on it |
| `MountEdit.AttachKeeps` | kernel/src/fs/namespace.c:117-124 | the same for attaching |
| `MountTable.MountTable.NextMnt` | kernel/src/fs/namespace.c:126-140 | the climbing loop over links returns the successor in pre-order |
| `MountTable.MountTable.Collect` | kernel/src/fs/namespace.c:266-274 | the kill list is the whole subtree, each mount once, in reverse pre-order |
| `MountTable.MountTable.Kill` | kernel/src/fs/namespace.c:276-289 | when a mount is detached nothing is mounted below it any more |
| `MountTable.MountTable.Umount` | kernel/src/fs/namespace.c:266-290 | exactly the mounts at or below the root are detached and stand alone, all other links are unchanged but for the root's entry, d_mounted stays right |
| `MountCopy.CopyStep` | kernel/src/fs/namespace.c:443-452 | cloning the next mount onto the image of its parent extends the partial copy by one |
| `MountTable.MountTable.Climb` | kernel/src/fs/namespace.c:439-442 | the paired climb ends at the parent of the next mount with q the image of p |
| `MountTable.MountTable.Copy` | kernel/src/fs/namespace.c:426-454 | the new mounts mirror exactly those at or below the source, with the same parents, mount points and roots and every child list reversed; the source is unchanged |
| `SeqText.ReadExactIff` | kernel/src/fs/seq_file.c:45-142 | a read takes its bytes off the front of the remaining text and loses none exactly when the first record it has to print fits the buffer |
| `SeqText.ReadKeeps` | kernel/src/fs/seq_file.c:45-142 | then leftover text stays the tail of the record m->index and the position moves by what was returned |
| `SeqText.EndOfFileIff` | kernel/src/fs/seq_file.c:80-130 | a positive-size read returns 0 exactly when only empty records remain, or empty records precede one larger than the buffer |
| `SeqText.ReadAmount` | kernel/src/fs/seq_file.c:62-130 | a read returns as much as was asked for, unless it has come to the end or to a record that does not fit behind those it has just printed, and then leaves nothing in the buffer |
| `SeqText.ReadsConcatenate` | kernel/src/fs/seq_file.c:45-142 | for records that fit and any sizes, the outputs joined, followed by what remains, are the joined records |
| `SeqText.TraverseLands` | kernel/src/fs/seq_file.c:144-190 | for records of any length the doubling ends, and afterwards the text to be delivered is the joined records from the offset on |
| `SeqText.SeekAgrees` | kernel/src/fs/seq_file.c:198-226 | a seek answers with a position exactly when that is the offset, for SEEK_SET, or the position plus the offset, for SEEK_CUR, and not below zero; then reader and position stand there; otherwise it is refused and changes nothing |
| `SeqText.RunsAreHonest` | kernel/src/fs/seq_file.c:45-226 | after any run of reads and seeks a read returns the bytes of the joined records at the file position, and nothing only past their end |
| `SeqText.GrowthCounterexample` | kernel/src/fs/seq_file.c:90-96 | the first byte read of a record as large as a page was never printed |
| `SeqFile.SeqFile.SeqRead` | kernel/src/fs/seq_file.c:45-142 | flush, first record, fill and hand-out on the buffer equal the model's read |
| `SeqFile.SeqFile.ShowFirst` | kernel/src/fs/seq_file.c:81-98 | the growing loop ends, with the buffer and count it leaves |
| `SeqText.GrowExact` | kernel/src/fs/seq_file.c:84-97 | the growing stops at the first doubling that leaves room for the record behind as many unprinted bytes, and this is what is in the buffer |
| `SeqText.TraverseSize` | kernel/src/fs/seq_file.c:144-190 | a traversal doubles the buffer only as long as some record does not fit it |
| `SeqFile.SeqFile.TraverseTo` | kernel/src/fs/seq_file.c:144-190 | one traversal equals one pass of the model, or doubles the buffer |
| `SeqFile.SeqFile.SeqLseek` | kernel/src/fs/seq_file.c:198-226 | the retry loop ends and equals the model's seek; the answer is the position asked for, by its origin, or a refusal |
| `PipeStream.PipeIsFifo` | kernel/src/fs/pipe.c:40-247 | under any interleaving: bytes delivered followed by the contents are the bytes accepted, contents never exceed PIPE_SIZE, each call has exactly the bytes it reports in stream order, the waiting counters count the waiters |
| `PipeStream.SmallWritesAreAtomic` | kernel/src/fs/pipe.c:160-203 | a finished write of at most PIPE_BUF bytes stands in one piece in the stream and reports its length, or has put in nothing |
| `PipeStream.ReadOutcomes` | kernel/src/fs/pipe.c:40-133 | without a signal a read takes the smaller of what it wants and what is there; exactly when it waits; and its result when it ends: the bytes, or an interruption, end of stream or EAGAIN, each under its exact condition |
| `PipeStream.WriteOutcomes` | kernel/src/fs/pipe.c:136-247 | exactly when a write copies and how much; exactly when it waits; and its result when it ends: the bytes, or an interruption, EPIPE without readers, or EAGAIN, each under its exact condition |
| `PipeStream.StepInv` | kernel/src/fs/pipe.c:40-247 | every section keeps the invariant behind these |
| `PipeWake.NoLostWakeUp` | kernel/src/fs/pipe.c:112-124 | a call that still sleeps, opens of further ends notwithstanding, would, if it went on, find that it has to sleep again |
| `Pipe.PipeInode.CopyBytesOut` | kernel/src/fs/pipe.c:86-110 | the chunked loop over the ring takes the oldest bytes in order, across the wrap and the reset of start |
| `Pipe.PipeInode.CopyBytesIn` | kernel/src/fs/pipe.c:182-203 | the chunked loop appends to the ring what fits, in order, across the wrap |
| `Pipe.PipeInode.PipeRead` | kernel/src/fs/pipe.c:40-133 | one section of pipe_read on the ring is the model's section |
| `Pipe.PipeInode.PipeWrite` | kernel/src/fs/pipe.c:136-247 | one section of pipe_write on the ring is the model's section |
| `DentryTree.MoveKeepsIff` | kernel/src/fs/dcache.c:963-991 | parent links stay a forest, child lists in step and hashed entries on their own chains exactly when neither entry is below the other |
| `DentryTree.RenameCounterexample` | kernel/src/fs/dcache.c:963-991 | renaming /a/b to /a passes the test is_subdir(target, dentry), and the move leaves the cache out of order |
| `DentryTree.MoveRenames` | kernel/src/fs/dcache.c:963-991 | the target's name now leads to the moved entry, its old name nowhere, every other name where it did |
| `DentryTree.LookupIff` | kernel/src/fs/dcache.c:763-803 | one chain is enough: a hashed entry of that parent and name is found if there is one |
| `DentryTree.AllocKeeps` | kernel/src/fs/dcache.c:644-694 | a new entry or root keeps the cache in order |
| `DentryTree.AddedLookup` | kernel/src/fs/dcache.c:644-694 | after d_alloc and d_rehash the name leads to the new entry and every other name leads where it did; no name is taken twice if this one was free |
| `DentryTree.RehashKeeps` | kernel/src/fs/dcache.c:898-905 | hashing an unhashed entry keeps the cache in order |
| `Dcache.Dcache.IsSubdir` | kernel/src/fs/dcache.c:1140-1157 | the climb ends and answers whether one entry is at or below the other |
| `Dcache.Dcache.DMove` | kernel/src/fs/dcache.c:963-991 | the list operations and swaps equal the model's move |
| `IpcIds.AddKeeps` | kernel/src/ipc/util.c:146-171 | takes the lowest free position below the granted size and touches no other, fails only when there is none, keeps in_use and max_id right |
| `IpcIds.GrowExact` | kernel/src/ipc/util.c:105-132 | the array gets the size asked for up to IPCMNI if there is memory, never shrinks, and is empty behind the old entries |
| `IpcIds.RemoveKeeps` | kernel/src/ipc/util.c:184-205 | empties one position and keeps in_use and max_id right |
| `IpcIds.FindKeyExact` | kernel/src/ipc/util.c:90-103 | the scan up to max_id finds the lowest entry with the key in the whole array, or there is none |
| `IpcIds.BuildIdRoundTrip` | kernel/src/ipc/util.h:87-97 | an id gives back its position and sequence number and fits an int |
| `IpcIds.LookupIff` | kernel/src/ipc/util.h:53-97 | in every history from the boot on, an id finds an object exactly when its position was last filled a whole number of rounds of sequence numbers later, and what it finds is the object of that addition, with its key |
| `IpcIds.StaleIdsAreRejected` | kernel/src/ipc/util.c:161-164 | in every history from the boot on, an id finds its own object, with the key it was added with, as long as that is there, and nothing else until seq_max + 1 further additions |
| `IpcTable.IpcTable.IpcFindKey` | kernel/src/ipc/util.c:90-103 | the loop returns the lowest position with the key, -1 exactly when no entry of the array has it |
| `IpcTable.IpcTable.GrowAry` | kernel/src/ipc/util.c:105-132 | the larger array has the old entries in front and is empty behind |
| `IpcTable.IpcTable.IpcAddId` | kernel/src/ipc/util.c:146-171 | the loop and the updates equal the model's addition and keep its invariant |
| `IpcTable.IpcTable.IpcRmId` | kernel/src/ipc/util.c:184-205 | the downward loop equals the model's removal and keeps its invariant |

## Left out

- FLOCK locks, leases, mandatory locking, lockd's waiters and file system lock callbacks: only POSIX locks are on the lists.
- Record locks: failure to allocate the two records in advance; pointers `caller`, `left` and `right` are positions in the list, and the global list of all locks is not kept.
- Spinlocks, semaphores, memory barriers and the scheduler: represented by atomic steps and by the points where a task may sleep.
- Buffer cache: LRU lists and their counters, hashing of buffers, writeback, and the metadata aliases that `unmap_underlying_metadata` removes.
- Page reads: a read that fails leaves the buffer's memory as it was; what a device writes before it reports an error is not modelled.
- Page writes: the device's answers (block lookup, disk bytes, whether a read succeeds) are parameters that stay the same over a series of writes, and writeback of dirty buffers is not modelled.
- Quota usage: upward wrap of the unsigned counters and of i_blocks, warnings to the terminal, DQ_FAKE handling in set_dqblk; i_blocks is a word of 32 bits when it wraps below zero, and a released block count fits it after the shift.
- QuotaLimits.RunsKeepGraceIff: assumes that the clock is not at zero, as a time in seconds since 1970 is not.
- QuotaConservation.StepConserves: assumes counters that cover their inodes; `QuotaConservation.StepConservesIff` is the statement without that.
- Dquot cache: the private disposal list that shares the `dq_free` link, hash collisions (a chain is searched by its key), the in-use list's order, failure of the disk; callers are modelled by the reference movements they may make between calls.
- Mounts: the lookup hash, the global list of mounts, reference counts of mounts and dentries, sys_pivot_root, and the cleanup when memory runs out in copy_tree.
- seq_file: errors from the iterator or from show, copy faults, memory failure, overflow of the doubled size; the records are the same for every call.
- Pipes: seeking (-ESPIPE), copy faults, opening FIFOs, poll; PIPE_SIZE is any positive number and PIPE_BUF any number up to it, with remainders where the code masks.
- Dcache.Dcache.DMove: the name string left in the target is arbitrary, since switch_names may leave it corrupted; both entries have a parent other than themselves, as every entry that can be renamed has.
- Directory cache: reference counts, the unused list, aliases, DCACHE_UNLINKED and deferred reclamation; names are compared as strings, not by a file system's own comparison.
- IPC identifiers: permissions, and negative ids, which every system call refuses first; IPCMNI is 32768 as in linux/ipc.h.
- Path walking, program loading, ioctl, stat, /proc formatting, and the user programs under apps.
