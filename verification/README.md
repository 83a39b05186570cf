# A verified model of the buffer cache and of 64-bit division

A file system mount owns a fixed set of block buffers on one doubly linked list, most recently used first
(`src/fs/bio.c`). `buf_incore` looks for a block from the head, `buf_new` looks for an idle victim from the tail,
`buf_getblk` combines the two with a retry loop, `bread`, `bwrite` and `buf_startwrite` drive I/O through `VOP_STRATEGY`,
`buf_wait`, `buf_done`, `bio_wait` and `bio_done` complete it, and `brelse` unlocks a buffer and moves it to the head.

The model has three layers.

- On the heap: `ListLib` is the pointer list of `src/util/listLib.c`; `BufferCache` has the C structures as classes and
  every routine as a method that assigns fields, relinks nodes and loops as the C code does. The ghost field `model` of a
  mount is its state as a value, and every method is proved to change it as a function of `CacheModel` says. `Valid` says
  that the chains from head and tail are the same buffers in opposite orders, and that no two buffers share a data area or a request.
- On values: `CacheModel` has one function per C routine. `Routines` says what each
  routine leaves in every field, with `b_flags` as the word of B_ constants that the C code computes with. `CacheInvariant`,
  `IoOutcome` and `Effects` say what that amounts to: list order, key uniqueness, the retry loop, the outcome of an I/O, and
  exactly when a call locks, unlocks, marks or takes a buffer. Over whole runs: `Runs` (the invariant), `Holds` (locks, pinning, completion tokens), `ErrorContainment`,
  `Coherence` and `Discipline` (transparency, and that clients can follow its rules), `LruInclusion` (exact LRU), `FileStrategy` (a strategy routine that goes through a second
  buffer). With tasks asleep in buf_getblk: `Wakeups`, `Sleepers`, `Woken` and `SharedCoherence`.
- Together: `HeapRuns`, `HeapSleepers` and `HeapLru` carry out runs on the heap, with and without sleepers, and conclude that
  clients of the heap cache see what a store without any cache would show, and that it is exactly LRU.

`Limits` and `Woken` state exactly where the code does less than one would expect. A second core, `LongDivision` and
`SignedDivision`, proves the schoolbook division of `src/gcc/qdivrem.c` down to its digits, and the signed quotient and
remainder over it.

A call is atomic. In the runs without sleepers this is what `mountLock` gives (`include/fs/mount.h:262-267`). The runs with
sleepers assume instead that a task runs until it blocks in semTake or returns: a task that slept under the mount lock
would keep all others out. The outcome of an I/O, its error code and what a failed transfer leaves in its target, is a
parameter of the call, so theorems hold for all of them. The field `stamp` of a buffer is not in the C code: it records the
last move to the head.

## Where code and comments differ

The model follows the code.

- The comment at `src/fs/bio.c:32-36` speaks of B_VALID. There is no such flag: a buffer that was obtained by a miss and
  released unread is a hit for the next caller, with the data of the block it held before, exactly when it has the size asked
  for (`Limits.UnreadBlockIsServed`). Exactly which releases are safe: `Limits.ReleaseExact`.
- `buf_done` releases a failed asynchronous write without B_INVAL (`src/fs/bio.c:412-413`), although buf_wait marks
  every other failed buffer. `Limits.FailedAsyncWriteIsServed` shows the effect, `Limits.AsyncWriteExact` says exactly when
  the next client sees what the medium holds. Transparency asks clients to call buf_wait before they ask for such a block.
- `buf_done` gives `b_sem` even if nobody waits (`src/fs/bio.c:416`), so a lock left after a read does not keep a second
  caller out: `Limits.ReadBlockHasTwoHolders`, `Limits.SecondHolderExact`, and for every step of a run with sleepers
  `Woken.SecondHolderStep`. Locks balance releases but for such calls, in every run (`Holds.HoldsConserved`), held buffers
  are pinned but for such calls (`Holds.PinnedExact`), and sharing is harmless exactly as long as the holder has nothing
  unwritten (`Limits.ShareExact`).
- B_WANTED does not count sleepers, although `src/fs/bio.c:214` speaks of anyone who needs the block. A release clears
  it and wakes one. The others are woken only by what gives `b_sem` again: a release after a new task has set B_WANTED, or
  the end of a synchronous I/O on the buffer, for which `buf_done` gives it in any case. `Sleepers.StrandsExact` says for every step in every run whether it leaves a task asleep
  beside an unlocked buffer, `Sleepers.RelayExact` which sequences of holders wake a whole queue.
- A woken task locks the buffer without another look at it (`src/fs/bio.c:315-319`). `Woken.WokenExact` says, over any run
  since it went to sleep, exactly when it returns a valid copy of its block and exactly when it is a second holder.
  It may return a block whose write has failed, with status OK (`Woken.WokenGetsFailedWrite`), another block
  (`Woken.ResumedGetsOther`), or a buffer that is locked again (`Woken.WokenIsSecond`).
- `buf_getblk` promises a buffer of the given size (`src/fs/bio.c:297`); a miss returns one of the victim's size.
- The read strategy of rt11fs keeps its second buffer locked when the read fails: `FileStrategy.ReadLeaksExact`.
- `buf_wait` returns EIO in place of the error that `bio_wait` returned (`src/fs/bio.c:366-380`); an error that
  `buf_done` recorded is returned as it is. `IoOutcome.Status` is that rule.

## Model

| member | source | states |
|---|---|---|
| `Coherence.Transparent` | src/fs/bio.c:38-46 | Transparency: in every run of clients that write or read a buffer before releasing it, do not take a buffer from a holder who still has to, and call buf_wait on a failed asynchronous write before they ask for the block, with errors of reads and of all writes at any step: everything seen through the cache is what a store without a cache, given the same writes, holds at that moment, and the medium ends as that store does |
| `SharedCoherence.Transparent` | src/fs/bio.c:305-348 | The same for runs in which tasks ask for locked blocks, sleep, are woken and go on, if a woken task finds a valid, up to date copy of its block |
| `SharedCoherence.TransparentOnNewMount` | src/fs/mount.c:163-193 | So it is from a new mount on, without sleepers at first |
| `HeapSleepers.ServeAll` | src/fs/bio.c:103-449 | The same with sleepers: what the given run of steps shows its clients, and the medium it leaves, are returned, and are those of the store without a cache |
| `HeapSleepers.ExecuteAll` | src/fs/bio.c:103-449 | A run with sleepers on the heap goes through the states, and shows its clients the data, of the run on values |
| `HeapSleepers.GoOn` | src/fs/bio.c:315-330 | In place: a woken task locks the buffer, and drops it if it has another size |
| `HeapRuns.Serve` | src/fs/bio.c:103-170 | A new mount of n buffers, on the heap, makes the given run: it returns exactly what the run shows its clients and the medium as the run leaves it, and both are those of the store without a cache |
| `HeapRuns.Execute` | src/fs/bio.c:103-449 | A run of calls on the heap goes through the states, and shows its clients the data, of the run on values |
| `HeapRuns.Perform` | src/fs/bio.c:103-449 | One call on the heap, any of the nine, changes the mount and shows its client what the step on values does |
| `HeapRuns.NothingShared` | include/fs/buf.h:59-60 | No two buffers share a data area or a request |
| `HeapRuns.RequestFitsArea` | include/fs/buf.h:59-60 | The data area of every request is that of its buffer |
| `Coherence.NextCoheres` | src/fs/bio.c:103-449 | Every call of a client with that discipline keeps: each keyed, valid buffer that is not being filled or changed by its holder, and whose asynchronous write has not failed, equals its block on the medium |
| `Coherence.ReadIsFromDisk` | src/fs/bio.c:103-127 | A bread that returns OK, by hit, by miss or by sharing a locked buffer, yields the data of the medium, and leaves the medium unchanged |
| `Coherence.BreadShows` | src/fs/bio.c:103-127 | A bread that returns a buffer shows its client the data of the medium if the read succeeds or a valid copy of the size exists, and otherwise nothing |
| `SharedCoherence.SleeperSeesWrite` | src/fs/bio.c:314-319 | A task asleep on a block sees what its holder then writes: change, successful bwrite and the woken task's return follow the rules and show the write, then its data |
| `SharedCoherence.WokenSees` | src/fs/bio.c:315-347 | A woken task that finds a valid, up to date copy of its block sees the data of the medium |
| `Discipline.ReadIsPolite` | src/fs/bio.c:38-46 | bread and brelse follow the rules of transparency, also after a failed read, and leave nothing unwritten |
| `Discipline.UpdateIsPolite` | src/fs/rawfs/rawVopsLib.c:520-536 | bread, a change and bwrite follow the rules; the client sees the medium and the medium ends with what he wrote, or what the failed write left |
| `Discipline.OverwriteIsPolite` | src/fs/rawfs/rawVopsLib.c:525-536 | So do buf_getblk, a change and bwrite of a whole block that is not read |
| `Coherence.SeesLastWrite` | src/fs/bio.c:38-40 | In such a run, what is seen of a block is the data of the last successful write of it, across other calls |
| `Coherence.StoreAsyncCoheres` | src/fs/bio.c:183-188 | An asynchronous write keeps the cache true while it is under way and after, also when it fails |
| `LruInclusion.ExactLru` | src/fs/bio.c:57-59 | After any sequence of uses, n buffers hold exactly the n distinct blocks used last, in the order of use, the latest at the head |
| `LruInclusion.Inclusion` | src/fs/bio.c:237-261 | The blocks in n buffers are at every moment the first n places of what m >= n buffers hold |
| `LruInclusion.NoBeladyAnomaly` | src/fs/bio.c:237-348 | m >= n buffers never read the medium more often than n buffers on the same uses |
| `LruInclusion.MissesExact` | src/fs/bio.c:116-121 | n buffers read the medium once for each use of a block that is not among the n distinct blocks used last before it, and for no other use |
| `LruInclusion.UseIsLru` | src/fs/bio.c:201-348 | One read or one read-change-write moves its block to the front of the kept blocks, dropping the last, and reads the medium exactly when the block was not kept |
| `LruInclusion.UsesAreRun` | src/fs/bio.c:103-226 | The uses are runs of the calls bread, brelse and bwrite |
| `HeapLru.Replay` | src/fs/bio.c:57-59 | On the heap: after any uses of a new mount, the keys along the list are the n blocks used last, and the number of reads of the medium is the number of uses of blocks that were not among them |
| `HeapLru.Compare` | src/fs/bio.c:237-348 | On the heap: the blocks in n buffers are a prefix of those in m >= n buffers, which read the medium no more often |
| `Runs.RunKeeps` | src/fs/bio.c:103-449 | Any run, with any holders and errors, keeps: list a permutation of the buffers, in strictly decreasing order of last move to the head, one valid copy per key |
| `Runs.StepKeeps` | src/fs/bio.c:103-449 | Each of the nine calls keeps that invariant, without any client discipline |
| `Runs.ReachableVictim` | src/fs/bio.c:244-258 | In every reachable state buf_new takes a buffer if and only if it is the idle one whose last move to the head is the oldest |
| `Runs.ReachableIncore` | src/fs/bio.c:279-290 | In every reachable state buf_incore returns a buffer if and only if it is the valid copy of the block, and there is no other |
| `Effects.StepEffect` | src/fs/bio.c:103-449 | For each of the nine calls and each buffer, without client discipline, in terms of the state before: exactly when the call locks it, unlocks it, takes it from its holder, marks it B_INVAL or clears the mark, and what key it then has |
| `Routines.BrelseDoes` | src/fs/bio.c:201-226 | Every field after brelse, with the flag word; nothing changes on an idle buffer |
| `Routines.HitDoes` | src/fs/bio.c:314-322 | Every field after a hit: asleep with B_WANTED, or returned with B_BUSY and B_CACHE, a full semaphore of a locked buffer being taken |
| `Routines.DiscardDoes` | src/fs/bio.c:323-329 | Every field of a copy of another size after it was dropped |
| `Routines.MissDoes` | src/fs/bio.c:237-261 | Every field after a miss, the request of bio_new included |
| `Routines.BufDoneDoes` | src/fs/bio.c:400-418 | Every field after buf_done, in both branches |
| `Routines.WaitTakes` | src/fs/bio.c:365-370 | What buf_wait does before B_DONE: it takes the completion, keeps its error as B_ERROR, and goes on as after buf_done |
| `Routines.WaitTells` | src/fs/bio.c:372-386 | What buf_wait returns after B_DONE, and when it takes the error branch |
| `Routines.FailDoes` | src/fs/bio.c:372-383 | Every field after the error branch: EIO for a missing code, B_INVAL, and the head of the list the first time |
| `Routines.BreadDoes` | src/fs/bio.c:112-126 | bread is buf_getblk, then OK, or the read with this flag word and its buf_wait |
| `Routines.BwriteInvalid` | src/fs/bio.c:145-148 | bwrite of a B_INVAL buffer returns OK, unlocks it, and leaves medium and data alone |
| `Routines.BwriteDoes` | src/fs/bio.c:158-169 | bwrite of a valid buffer: the write with this flag word, then buf_wait, its status and brelse; OK at once if B_ASYNC was set |
| `Routines.StartWriteDoes` | src/fs/bio.c:183-188 | buf_startwrite: B_ASYNC, then bwrite, which does nothing on a valid idle buffer |
| `Routines.MountDoes` | src/fs/mount.c:163-193 | Every field of every buffer of a new mount, b_sem empty, data zero |
| `Routines.NewMountLocks` | src/fs/mount.c:174-190 | Of two tasks that ask a new mount for one block, the first gets the buffer at the tail and the second sleeps on it |
| `Routines.ThirdSleeps` | src/fs/bio.c:315-318 | A second holder takes the semaphore with the buffer and leaves B_WANTED: a third task that asks, for any size, sleeps |
| `CacheInvariant.TouchStamps` | src/fs/bio.c:220-222 | Remove and insert at the head keeps the list in order of recency |
| `CacheInvariant.TouchKeeps` | src/fs/bio.c:342-344 | Remove and insert at the head loses and duplicates no buffer |
| `CacheInvariant.IncoreExact` | src/fs/bio.c:272-291 | The forward search is exact in both directions |
| `CacheInvariant.FindFirstIsFirst` | src/fs/bio.c:279-290 | The forward search returns the first valid copy from the head, and null only if there is none |
| `CacheInvariant.VictimIsOldestIdle` | src/fs/bio.c:237-261 | The backward search is exact: idle, with the least time stamp of all idle buffers |
| `CacheInvariant.VictimExists` | src/fs/bio.c:237-261 | buf_new succeeds if and only if some buffer is idle |
| `CacheInvariant.RetryIsMiss` | src/fs/bio.c:313-345 | At most two passes: the copy of another size was the only one, so the second pass is a miss, and it finds a victim even if all other buffers are locked |
| `CacheInvariant.GetblkOutcome` | src/fs/bio.c:305-348 | buf_getblk sleeps if and only if the valid copy is locked and its semaphore empty, and spins if and only if there is no copy and all buffers are locked |
| `CacheInvariant.GetblkReturns` | src/fs/bio.c:295-348 | For a call that does not sleep: B_CACHE if and only if the buffer was a valid copy of the requested size, which then is unchanged but for the lock; otherwise a cleared buffer with a new request, which has the requested size if and only if the victim had it |
| `CacheInvariant.GetblkKeeps` | src/fs/bio.c:305-348 | buf_getblk keeps the invariant, in the hit, the sleep, the mismatch and the miss |
| `CacheInvariant.BreadKeeps` | src/fs/bio.c:103-127 | bread keeps the invariant although it clears B_INVAL: its buffer is then the only one of its key |
| `CacheInvariant.BwriteKeeps` | src/fs/bio.c:139-170 | bwrite keeps the invariant on the B_INVAL, synchronous and asynchronous paths |
| `CacheInvariant.BufWaitKeeps` | src/fs/bio.c:359-387 | buf_wait keeps the invariant, with or without an error |
| `CacheInvariant.SwapDataExchanges` | src/fs/bio.c:427-449 | buf_swapdata is undone by a second one, is symmetric, keeps the multiset of (data, size, request) and changes nothing else |
| `CacheInvariant.FreshWellFormed` | src/fs/mount.c:163-193 | The buffers of mountBufAlloc satisfy the invariant |
| `IoOutcome.SyncIo` | src/fs/bio.c:116-123 | The wait of a synchronous I/O consumes that I/O's completion, through either route, and returns its status; other buffers and the list are untouched unless it failed |
| `IoOutcome.ReadInReturns` | src/fs/bio.c:116-123 | A read miss: data from the medium or junk, error, B_INVAL and B_ERROR if and only if the I/O failed |
| `IoOutcome.BreadReturns` | src/fs/bio.c:103-127 | bread returns a locked buffer of the block, read at once or found; it holds it also when the read failed |
| `IoOutcome.BwriteReturns` | src/fs/bio.c:158-166 | A synchronous bwrite stores the data, releases the buffer once and returns the I/O's status |
| `IoOutcome.StartWriteReturns` | src/fs/bio.c:183-188 | An asynchronous write stays locked until its completion is taken, or is released by buf_done with the error code alone |
| `IoOutcome.WaitReaps` | src/fs/bio.c:359-387 | buf_wait on an asynchronous write takes its completion, releases it once, and marks it B_INVAL if and only if it failed |
| `IoOutcome.WaitRechecks` | src/fs/bio.c:372-386 | buf_wait after completion returns OK and changes nothing if and only if no error is recorded |
| `Holds.TokensBalance` | src/fs/bio.c:516-548 | After any run of clients that use only what they hold, and ask for no other size while a write is under way, a request's semaphore is full if and only if an asynchronous write is under way: no stale completion, none lost |
| `Holds.SyncTokens` | src/fs/bio.c:516-548 | After any run without buf_startwrite, with no client discipline, no request has a completion left over |
| `Holds.HoldsConserved` | src/fs/bio.c:201-226 | In every run, without discipline: the number of locked buffers is the number of calls that returned a buffer, minus that of calls that gave one up, minus that of calls that took a locked buffer from its holder |
| `Holds.LocksExact` | src/fs/bio.c:139-226 | Every call that returns a buffer, failed or not, locks exactly that one, idle before, every release unlocks exactly one, and no call does both, if and only if the call takes no locked buffer from its holder; otherwise that buffer is exchanged for the one returned |
| `Holds.GetAcquires` | src/fs/bio.c:305-348 | What buf_getblk changes: asleep, the note on one buffer; else the buffer returned and at most one copy of the block in another size, which is dropped |
| `Holds.PinnedExact` | src/fs/bio.c:244-347 | A call that does not name a locked buffer leaves it to its holder, every field but B_WANTED unchanged, if and only if it does not ask for its block while its semaphore is full |
| `Holds.PinnedThroughout` | src/fs/bio.c:244-347 | Over any run a locked buffer stays as its holder left it while no call names it or takes it |
| `Wakeups.NoLostWakeup` | src/fs/bio.c:214-226 | In any run, whoever makes the calls, B_WANTED of a locked buffer stays set, and the buffer locked, until its semaphore has been given |
| `Wakeups.NotedThroughout` | src/fs/bio.c:315-318 | In any run B_WANTED stands only on locked buffers with an empty semaphore |
| `Wakeups.StepWakes` | src/fs/bio.c:103-449 | No call drops a note without giving the semaphore, nor takes the semaphore without leaving a note |
| `Wakeups.SleeperIsNoted` | src/fs/bio.c:314-318 | A buf_getblk that sleeps leaves its note on the valid copy, and a release then unlocks it and gives the semaphore |
| `Sleepers.StrandsExact` | src/fs/bio.c:201-418 | In every state of every run, with tasks asleep and woken tasks going on: a step strands a task (asleep, buffer unlocked, nobody on the way) if and only if it unlocks the buffer without giving its semaphore while somebody sleeps and nobody woken is still on the way; and a stranded task is rescued if and only if the step locks the buffer or gives its semaphore |
| `Sleepers.StrandedExact` | src/fs/bio.c:214-226 | Over a whole run tasks are stranded on a buffer at some moment if and only if some step of the run, at its moment, met that condition |
| `Sleepers.StrandedOnNewMount` | src/fs/bio.c:214-226 | The same for every run of a new mount, which is sound throughout |
| `Sleepers.GivesExact` | src/fs/bio.c:201-418 | For each of the nine calls exactly when it gives the empty semaphore of a buffer, in terms of flags before the call |
| `Sleepers.SleepsExact` | src/fs/bio.c:314-318 | A call goes to sleep on a buffer if and only if it asks for its block, of which it is the valid copy, locked with an empty semaphore |
| `Sleepers.TasksConserved` | src/vmx/semBLib.c:258-278 | No task is lost: each step adds one exactly if a task goes to sleep, takes one away exactly if a woken one goes on, and each give wakes exactly one |
| `Sleepers.RelayExact` | src/fs/bio.c:163-226 | In a schedule of one release or bwrite per holder and no other callers: of n sleepers noted by B_WANTED all are woken if and only if each of the holders 2 to n ends a synchronous write of the still valid buffer |
| `Sleepers.RunSound` | src/vmx/semBLib.c:258-278 | In every run nobody sleeps on a full semaphore, and list, keys and notes are in order, woken tasks included |
| `Woken.WokenExact` | src/fs/bio.c:313-319 | Whatever ran since a task went to sleep on the copy of its block: it returns B_CACHE; a valid copy of its block if and only if the buffer was last returned for that block, by a call that did not fail to read it, and not marked B_INVAL since; and a locked buffer if and only if it was locked again after it was last unlocked |
| `Woken.ResumedExact` | src/fs/bio.c:313-319 | A woken task returns a valid copy of its block if and only if another buf_incore would have found that buffer |
| `Woken.SecondHolderStep` | src/fs/bio.c:313-347 | For every step of a run with sleepers, a call or a woken task: it returns a buffer that is already locked if and only if the call finds the valid copy locked with a full semaphore, the size being right or all others being locked, or the woken task finds its buffer locked and of its size |
| `Woken.WokenGetsFailedWrite` | src/fs/bio.c:315-319 | After a failed bwrite the task that it wakes returns the buffer with B_CACHE although it is B_INVAL and its data are not on the medium |
| `Woken.WokenIsSecond` | src/fs/bio.c:315-319 | Released and returned by a hit before the woken task runs, the buffer is locked twice, its semaphore being empty |
| `Woken.ResumedGetsOther` | src/fs/bio.c:313-347 | Released and taken for another block before the woken task runs, the buffer is returned to it with B_CACHE, locked twice and with the other block's key |
| `Woken.InvalidStays` | src/fs/bio.c:237-291 | With sleepers too, an invalid buffer stays invalid until a call of buf_getblk returns it |
| `FileStrategy.WriteThrough` | src/fs/rt11fs/rt11VopsLib.c:1450-1458 | Exchange, asynchronous write, wait, exchange back: the physical block gets the file buffer's data, the file buffer is as before, the second buffer is unlocked and invalid, no other buffer changes but an idle copy of the block in another size, which is dropped, and the status is that of the write |
| `FileStrategy.ReadThrough` | src/fs/rt11fs/rt11VopsLib.c:1398-1409 | The file buffer gets the data of the physical block, cached or read, and nothing else of it changes but size and request; the second buffer is unlocked and invalid with the old data, the medium unchanged |
| `FileStrategy.ReadLeaksExact` | src/fs/rt11fs/rt11VopsLib.c:1398-1409 | The read strategy gives back every lock it takes if and only if its bread returns OK; after an error the second buffer stays locked |
| `FileStrategy.FileBread` | src/fs/rt11fs/rt11VopsLib.c:1398-1410 | A bread of an uncached file block through the read strategy, to the end: its status is that of the bread of the physical block; OK means the data of the physical block under the key of the file block, an error means B_INVAL |
| `FileStrategy.FileBwrite` | src/fs/rt11fs/rt11VopsLib.c:1450-1460 | A synchronous bwrite of a file buffer through the write strategy, to the end: the physical block gets its data, it keeps them, it is released, and status and B_INVAL tell whether the physical write failed |
| `ErrorContainment.FailedReadIsContained` | src/fs/bio.c:359-387 | bread returns an error if and only if its read failed; then the code is recorded, the buffer is B_INVAL, and stays so in every run until it is returned anew |
| `ErrorContainment.FailedWriteIsContained` | src/fs/bio.c:163-166 | The same for a synchronous bwrite, whose buffer is also released |
| `ErrorContainment.InvalidUntilReturned` | src/fs/bio.c:237-291 | Across arbitrary calls an invalid buffer stays invalid until buf_getblk returns it |
| `ErrorContainment.InvalidNeverHit` | src/fs/bio.c:284-286 | A call that does not sleep returns an invalid buffer only by a miss, without B_CACHE, and bread then reads it anew; a task that slept on it before may still be handed it, see `Woken.WokenGetsFailedWrite` |
| `Limits.FailedAsyncWriteIsServed` | src/fs/bio.c:412-413 | After a failed asynchronous write released by buf_done, bread returns OK with data that is not on the medium |
| `Limits.AsyncWriteExact` | src/fs/bio.c:400-418 | After buf_done has released the buffer, the next client sees what the medium holds, whatever the write left there, if and only if the write did not fail |
| `Limits.WaitedAsyncWriteIsContained` | src/fs/bio.c:365-383 | A failure reported through bio_done is contained by the first buf_wait |
| `Limits.ReleaseExact` | src/fs/bio.c:32-46 | Whatever the holder may have put in the buffer, releasing it keeps the cache true if and only if he has read or written it after he got it without B_CACHE or changed it, or has set B_INVAL |
| `Limits.UnreadBlockIsServed` | src/fs/bio.c:32-40 | After a miss is released unread, bread of the block returns OK with the old data of the victim if and only if the victim has the size asked for; otherwise it reads the block |
| `Limits.SecondHolderExact` | src/fs/bio.c:315-319 | A call that does not sleep returns an already locked buffer if and only if the valid copy is locked with a full semaphore and has the size or is the only buffer to be had |
| `Limits.ReadBlockHasTwoHolders` | src/fs/bio.c:414-417 | After every read of the medium the locked buffer can be taken: a second caller is handed it with B_CACHE if and only if he asks for the size that it has |
| `Limits.OtherSizeExact` | src/fs/bio.c:323-329 | A buf_getblk unlocks a locked buffer, or returns it cleared to another client, if and only if it asks for its block in another size while its semaphore is full |
| `Limits.TokenLeftExact` | src/fs/bio.c:323-329 | A buf_getblk leaves a stale completion behind if and only if it drops a buffer of another size under its asynchronous write and returns another one |
| `Limits.ShareExact` | src/fs/bio.c:38-46 | Whatever a holder has put in the buffer, a second client that is handed it sees what was written if and only if the holder has nothing unread or unwritten |
| `Limits.OtherSizeIsReread` | src/fs/bio.c:323-330 | Another size never gets the old copy, leaves the medium alone, and bread reads the block again |
| `BufferCache.Mount.constructor` | src/fs/mount.c:163-193 | The buffers, their data areas and the list as mountBufAlloc leaves them |
| `BufferCache.Mount.Brelse` | src/fs/bio.c:201-226 | In place: wakes, moves to the head, unlocks; nothing on an idle buffer |
| `BufferCache.Mount.BufIncore` | src/fs/bio.c:272-291 | The loop over the next links finds what the search on values finds, having covered the list |
| `BufferCache.Mount.BufNew` | src/fs/bio.c:237-261 | The loop over the prev links locks and clears the last idle buffer of the list, or changes nothing |
| `BufferCache.Mount.BioNew` | src/fs/bio.c:557-580 | A request of its own for the buffer, cleared and empty, pointing at its data area |
| `BufferCache.Mount.BufGetblk` | src/fs/bio.c:305-348 | The retry loop terminates and reaches the state and buffer of the recursive function; a miss brings a fresh request |
| `BufferCache.Mount.BioDone` | src/fs/bio.c:535-548 | Records the error and fills the request's semaphore |
| `BufferCache.Mount.BioWait` | src/fs/bio.c:516-526 | Empties the semaphore and returns the request's own error |
| `BufferCache.Mount.BufDone` | src/fs/bio.c:400-418 | Records the error, then releases an asynchronous buffer or fills b_sem |
| `BufferCache.Mount.BufWait` | src/fs/bio.c:359-387 | Takes the completion if the I/O is not done, and marks a failed buffer |
| `BufferCache.Mount.Bread` | src/fs/bio.c:103-127 | The state, status and buffer of bread |
| `BufferCache.Mount.Bwrite` | src/fs/bio.c:139-170 | The state and status of bwrite |
| `BufferCache.Mount.BufStartwrite` | src/fs/bio.c:183-188 | The state after an asynchronous write |
| `BufferCache.Mount.BufSwapdata` | src/fs/bio.c:427-449 | Data areas, sizes and requests change place, so that each still has one buffer |
| `BufferCache.Mount.Requeue` | src/fs/bio.c:220-222 | Relinking one node moves its buffer to the front of the order and keeps the others in order |
| `ListLib.List.Insert` | src/util/listLib.c:60-104 | Inserts after a node or at the head; both chains stay the same nodes in opposite orders, with count their number |
| `ListLib.List.Add` | src/util/listLib.c:112-118 | Appends at the tail |
| `ListLib.List.Remove` | src/util/listLib.c:161-199 | Takes one node out, wherever it is, the others keeping their order |
| `ListLib.List.Get` | src/util/listLib.c:126-153 | Takes the head off, or returns null |
| `ListLib.List.Count` | src/util/listLib.c:207-223 | The number of nodes on the chains |
| `ListLib.List.MoveToHead` | src/fs/bio.c:220-222 | Remove and insert at the head: this node first, the others in their order |
| `Recency.MoveToFrontAt` | src/fs/bio.c:220-222 | Where every element is after one comes to the front |
| `LongDivision.QDivRem` | src/gcc/qdivrem.c:76-271 | For every 64-bit dividend and non-zero divisor: quotient * divisor + remainder is the dividend, remainder below the divisor |
| `LongDivision.TrialDigit` | src/gcc/qdivrem.c:194-219 | The trial digit does not exceed what the first two divisor digits allow, and one more would, unless it is the largest digit |
| `LongDivision.TrialIsClose` | src/gcc/qdivrem.c:194-200 | With a normalized divisor the trial digit is the quotient digit or one more |
| `LongDivision.MultiplySubtract` | src/gcc/qdivrem.c:220-232 | In place: the value of the digits drops by digit times divisor, and the flag is the wrap below zero |
| `LongDivision.AddBack` | src/gcc/qdivrem.c:239-247 | In place: the value grows by the divisor, a carry leaving at the top |
| `LongDivision.DivideDigit` | src/gcc/qdivrem.c:191-248 | One step: an exact quotient digit, and a rest below the divisor |
| `LongDivision.DivideRow` | src/gcc/qdivrem.c:188-249 | All steps: the quotient digits times the divisor, plus the rest left in place, is the dividend |
| `LongDivision.ShiftLeft` | src/gcc/qdivrem.c:58-66 | In place: multiplies the value of the digits by a power of two when nothing falls out |
| `LongDivision.ShiftRight` | src/gcc/qdivrem.c:256-262 | In place: divides the value by a power of two, the bits shifted out being the rest |
| `LongDivision.ShiftCount` | src/gcc/qdivrem.c:178-180 | The shift that brings the first divisor digit to half the base or above without overflow |
| `LongDivision.ShortDivide` | src/gcc/qdivrem.c:145-157 | The unrolled division by one digit |
| `LongDivision.LongDivide` | src/gcc/qdivrem.c:161-265 | Normalization, steps and shift back give quotient and remainder of the unshifted numbers |
| `SignedDivision.DivDi3` | src/gcc/divdi3.c:40-57 | For all operands but one pair the quotient truncated toward zero, the remainder zero or with the dividend's sign; the least number by -1 wraps to the least number |
| `SignedDivision.ModDi3` | src/gcc/moddi3.c:42-59 | For all operands the remainder of truncating division |
| `SignedDivision.UDivDi3` | src/gcc/udivdi3.c:39-45 | The unsigned floor quotient |
| `SignedDivision.UModDi3` | src/gcc/umoddi3.c:39-47 | The unsigned remainder |
| `SignedDivision.DivMod` | src/gcc/divdi3.c:40-57 | Quotient and remainder are those of truncating division, for all operands but one pair, and fit together modulo the word size always |
| `SignedDivision.TruncatesUnique` | src/gcc/divdi3.c:36-39 | Truncating division has one quotient and one remainder |
| `SignedDivision.OnlyOverflow` | src/gcc/divdi3.c:55-56 | The quotient leaves the signed range for one pair of operands only |

## Left out

- Preemption inside a call: calls are atomic. Going to sleep ends a call and waking up begins a step of its own in `Sleepers`; which of several sleepers semGive picks by priority is not modelled, only how many there are, so a woken task may be any that slept on the buffer. In the runs without sleepers (`Runs`) a full semaphore is taken at once.
- Woken.WokenExact: for a buffer of the size asked for; with another size the woken task drops the buffer and calls buf_getblk again, which is a new call of the run.
- The "no buffers" spin (`src/fs/bio.c:332-335`) ends as `NoBuffers`; it is exact when that happens, but not what another task does meanwhile.
- BufferCache.Mount.Bwrite: requires a buffer that is locked or B_INVAL, because on a valid idle one the C function returns without a value (`src/fs/bio.c:150-156`); it also requires a key and a request, which the C code dereferences.
- BufferCache.Mount.BufWait: requires a finished I/O or a waiting completion, because without one the C function blocks for ever in the model's atomic calls.
- BufferCache.Mount.BufStartwrite: the transfer to the medium is made at the call, as by the strategy routines of the repository; only the completion may be taken later. A transfer deferred to an interrupt is not modelled.
- LruInclusion.ExactLru: one client, blocks of the buffers' size, I/O that succeeds; with errors or other sizes an invalid buffer takes a place and the kept blocks are no longer a prefix.
- Coherence.Transparent: does not cover clients that ask for a block while its holder has unread or unwritten data in it and its semaphore is full, of which `Limits.ShareExact` shows that the property fails, nor clients that ask for a block after a failed asynchronous write without buf_wait, of which `Limits.AsyncWriteExact` shows it, nor clients that use a buffer they do not hold, or ask for a block in another size while an asynchronous write of it is under way (`Limits.TokenLeftExact`); HeapRuns.Serve likewise.
- SharedCoherence.Transparent: does not cover woken tasks that find their buffer changed; `Woken.WokenGetsFailedWrite` and `Woken.ResumedGetsOther` show that the property fails for them.
- Sleepers.RelayExact: other callers are not in the schedule; for runs with other callers `Sleepers.StrandsExact` has the condition of each step.
- FileStrategy.FileBread: for a file block that is not cached; the mapping of cached file blocks to physical blocks is not tracked over runs.
- The logical to physical mapping of the strategy routines: two keys are two cells of the medium. The strategy routines of rt11fs that go through a second buffer are modelled as calls of a run in `FileStrategy`, the number of the physical block being a parameter; sparse files and the lookup of ext2fs (`src/fs/ext2fs/ext2VopsLib.c`) are not.
- The number of bytes of a transfer: the data area takes the whole cell, whatever `b_size`; the size only decides hits.
- The fields b_dev, b_count, b_resid, b_priority and bio_dev; buf_setpriority, whose value nothing reads; log messages; the completion function of a request, null for those of bio_new.
- bio_alloc, bio_free, allocation failures and the panic in bio_new; the request that bio_new replaces is never freed in C, and is garbage here.
- Several mounts, the argument checks of mountBufAlloc and a call of it on a non-empty list; freeing the buffers.
- ListLib.List.Insert: requires a node that is not on the list and a predecessor that is, as the C code silently does; a null list pointer is a type error here.
- LongDivision.QDivRem: requires a non-zero divisor, because the C code divides by zero there; longs of 32 bits, hence digits of 16; joining digits with a bitwise or is written as addition, the bits being disjoint; the remainder is always returned.
- The rest of the repository: tasks, semaphores, memory partitions, the file systems above the cache, networking, the loader, the shell and the drivers.
