# picotm in Dafny

A model of picotm, a system-level transaction manager written in C, and proofs about it. The model covers the four
parts of picotm that hold its guarantees:

- **Transactional memory over reader/writer locks.** A transaction shadows every 8-byte block it touches by a page
  with a buffer and a validity bit per byte. Stores are buffered (write-back), or made in place while the buffer keeps
  the old bytes (write-through). Locks are taken on access and released only when the transaction is finished. `Pages`
  has one page, `FlatMemory` the meaning of all pages as two images of memory (what the transaction sees, what an abort
  restores), `VmemTx` the operations over the sorted list of pages, and `Serializability` any number of transactions
  interleaved, with privatizing and discarding at any time. `CommitRequests` ties the logs of these transactions, their
  pages and the history to what a schedule asks for, and `MemoryProgress` has what a transaction can do by itself.
  `LockWord`, `RwLock` and `RwLockProtocol` have the one-byte lock word below: its bits, its compare-and-swap loops, and
  all threads together.
- **The engine and the lock manager.** `Transaction` has one transaction's begin, commit and rollback over its modules
  and its event log, and `CommitMemory` what these calls do to the shared memory; `Engine` has many transactions with
  retry counters, the exclusion lock behind irrevocability, and data locks, and `EngineRuns` what conflicts, requests and
  errors lead to; `WaiterList`, `WaiterSteps` and `WaiterRuns` have the waiter lists with hand-over-hand locking of lock
  owners; `WakeUp` the choice and the wake-up of waiters as code over linked owners; `Wakers`, `WakerSteps` and
  `WakerRuns` wakers at work while threads join and leave the lists; `WaitAlone` and `WakeAlone` what a thread and a
  waker come to when the others pause.
- **Transactional queue, stack, list and multiset.** `TxLib` has their meaning on sequences, with the event log, undo
  and commit; `TxLibViews` and `TxLibRuns` any number of transactions that share them, `TxLibRequests` their logs and the
  history as a schedule asks for them, and `TxLibProgress` what a transaction can do by itself; `Rings` the circular
  linked entries; `TxStructures` the queue, stack and list of a transaction over those; `Multiset` the parent-linked
  search tree.
- **Radix tree maps.** `Radix` has the index arithmetic, `Treemap` the sequential map that grows at its root and is
  walked with an explicit stack, `SharedTreemap` the lock-free map, `TreemapCalls` the calls that a run is asked for and
  what each of them returns, `FrameMap` the way from an address to its lock.

How the source is represented:

- Code that changes things in place is written as classes and methods. Each method is tied to a function on values, or
  to a ghost view of the object, and the theorems are about those.
- Where threads interleave, the model is a state machine whose steps are the atomic accesses, the mutex operations and
  the writes under a mutex. Atomic accesses are sequentially consistent. A theorem about a machine is about every
  sequence of steps from an initial state, with any number of threads. What such a sequence asks for (which loads and
  stores, which commits, which look-ups, which list to wait in) is defined by functions on the sequence itself, and the
  records that a machine keeps are proved to be that.
- A lock attempt that may be refused returns its outcome nondeterministically. The environment of a compare-and-swap
  loop is the sequence of words that the other threads leave behind between two accesses, of any length.
- Shifts are multiplications and divisions by powers of two. Addresses and keys are natural numbers.

Four places where the code does not do what one would expect are theorems too:

- The retry limit is met by equality only (`src/picotm_tx.c:189`). A restart beyond it is possible from the recovery
  code of an irrevocable transaction, and leads to a revocable run again: `Engine.RevocableBeyondTheLimit`. With
  restarts caused by conflicts only, the bound holds: `Engine.ConflictsAreBounded`.
- Inserting into a multiset a key that is met on the way down leaves a valid tree if and only if the entry that is met
  has no lt child. Otherwise no tree at all is linked to the head: `Multiset.Multiset.Insert`, with the concrete keys
  2, 1, 2 in `Multiset.EqualKeyExample`. With distinct keys the condition always holds.
- Privatizing a range goes unnoticed if and only if the transaction has no store that changes memory in a block of it
  that has not been privatized before. Otherwise what the transaction reads there, and what a commit leaves, change
  places with what an abort leaves: `Pages.PrivatizeKeepsViewIff` for one page and `FlatMemory.SwitchedInvisibleIff` for
  a range, with a concrete page in `FlatMemory.PrivatizeAfterStoreExample`.
- The walks of commit and abort skip discarded blocks (`modules/tm/src/vmem_tx.c:564-604`). So a commit loses a store
  that is still buffered there, and an abort keeps one that was made in place: `Pages.DiscardLosesStoreExample` and
  `Pages.DiscardKeepsStoreExample`. Discarding makes no difference if and only if there is no such byte:
  `Pages.DiscardKeepsIff` for one page, `FlatMemory.SwitchedInvisibleIff` for the range that is discarded, and
  `FlatMemory.DiscardMattersIff` for the end of the transaction. Among many transactions, an abort leaves something
  behind only after such a step: `Serializability.AbortLeavesNothing` and `Serializability.CarelessIff`, with a concrete
  run in `Serializability.CarelessAbortExample`.

## Model

| member | source | states |
|---|---|---|
| `Serializability.Serializable` | modules/tm/src/vmem_tx.c:176-645 | For every interleaving of any number of transactions that lock, load, store, privatize, discard, apply, undo and finish, in any order that the code accepts: the transactions that ended, run one after the other in the order in which their walks ended, are a correct serial run that returns the same bytes for every load; memory equals the result of that run in every block without a writer lock, and everywhere once all transactions are idle. A commit counts with its loads and stores, and with a store wherever privatizing or discarding changed what it leaves; an abort counts if it leaves something |
| `Serializability.RunningSeesCommittedOnly` | modules/tm/src/vmem_tx.c:176-287 | At every moment, what a running transaction has loaded and stored so far is a correct run on top of the committed ones, so no load ever saw uncommitted bytes, not even of a transaction that aborts later |
| `Serializability.AbortLeaves` | modules/tm/src/vmem_tx.c:591-617 | When an undo walk has ended, every block of the aborted transaction holds what the history and the stores that the abort leaves behind lead to |
| `Serializability.AbortLeavesNothing` | modules/tm/src/vmem_tx.c:591-617 | As long as nobody privatizes or discards a block in which it has a store that changes memory, the history holds commits only, and when an undo walk has ended, every block of the aborted transaction holds what the committed transactions alone leave there |
| `Serializability.CarelessIff` | modules/tm/src/vmem_tx.c:335-410 | In every reachable state, privatizing or discarding a block changes what a commit or an abort amounts to if and only if the two differ in that block, and it is not a privatized block that is privatized again |
| `Serializability.NotStoredIsCareful` | modules/tm/src/vmem_tx.c:335-410 | A block that the transaction has not stored to can be privatized and discarded without such a change |
| `Serializability.CarelessAbortExample` | modules/tm/src/vmem_tx.c:335-410 | A run that stores a byte in place, discards its block and aborts, after which the byte is still in memory |
| `Serializability.EndStep` | modules/tm/src/vmem_tx.c:564-617 | The end of the apply or undo walk is the moment at which a transaction counts: the invariant moves to the serial memory with its log, or with what it leaves behind, replayed |
| `Serializability.StepKeepsInv` | modules/tm/src/vmem_tx.c:176-645 | Every step of every transaction keeps the invariant that relates memory, buffers, locks and the serial memory: exclusive writers, and for each page what a commit and what an abort will leave |
| `Serializability.ReplayFrame` | modules/tm/src/vmem_tx.c:176-198 | A log that runs correctly on one memory runs correctly, with the same loads, on any memory that agrees in the blocks it touches, and changes only those |
| `CommitRequests.RequestsDecide` | modules/tm/src/vmem_tx.c:176-645 | What a schedule asks for decides everything, without a look at what the machine records: if blocks are privatized and discarded with care, memory is, in every block that nobody has a page for in writer mode, what the requests of the committed transactions make of it when they are performed alone, one transaction after the other in the order in which their walks ended; each of their loads returned what it finds in that serial run, and so did those of a transaction that still runs, performed after these |
| `CommitRequests.LogsAreAsked` | modules/tm/src/vmem_tx.c:176-436 | After any schedule, the log of a transaction is what was asked of it since its last walk ended: every store with its block, offset and bytes and every load with its block, offset and length, in order, and nothing else but a store of the whole block where a careless privatize or discard was asked for; its pages have the lock state, the mode and the discard mark that the schedule gives them; and the history holds the logs of exactly those transactions that were asked to commit |
| `CommitRequests.EndedWalkCounts` | modules/tm/src/vmem_tx.c:564-617 | When the walk of a transaction ends, the history grows by the log that it had when it began the walk, if that began a commit, and otherwise by nothing but what it leaves behind |
| `CommitRequests.StoreInPlace` | modules/tm/src/vmem_tx.c:273-280 | In every reachable state, a store changes memory at once, at the stored bytes, exactly in a block that the schedule has privatized |
| `MemoryProgress.CanEnd` | modules/tm/src/vmem_tx.c:564-645 | In every reachable state a running transaction can commit or abort by its own steps alone; then it holds no lock any more, the history has grown by what it amounts to, and no other transaction has changed |
| `MemoryProgress.CanRead` | modules/tm/src/vmem_tx.c:176-230 | A load is answered, and a block privatized for loads, whenever no other transaction has the block in writer mode and the block is not discarded |
| `MemoryProgress.CanWrite` | modules/tm/src/vmem_tx.c:232-287 | A store is made, and a block discarded, whenever no other transaction has locked the block and it is not discarded |
| `Pages.CopyBitsSelectsRange` | modules/tm/src/vmem_tx.c:150-174 | The two shifts select exactly the bytes of the range that lie in the block of its address, for every address and size |
| `Pages.LoadKeepsOverlay` | modules/tm/src/page.c:63-96 | Filling a page's buffer from memory never overwrites what is in the buffer already, for any set of bytes asked for |
| `Pages.StoreChunkView` | modules/tm/src/vmem_tx.c:257-287 | In either mode, a store shows in what its owner sees exactly at the stored bytes, leaves what an abort restores as it was, and touches memory only in write-through mode |
| `Pages.LoadChunkView` | modules/tm/src/vmem_tx.c:200-230 | In either mode, a load returns what the owner sees and changes neither that nor what an abort restores |
| `Pages.PrivatizeKeepsViewIff` | modules/tm/src/vmem_tx.c:345-379 | Switching a page to write-through keeps what its owner sees if and only if every valid byte of the buffer equals memory |
| `Pages.DiscardKeepsIff` | modules/tm/src/vmem_tx.c:381-392 | After a discard, a commit and an abort both leave what memory holds now, and that is what they would have left if and only if every valid byte of the buffer equals memory |
| `Pages.DiscardLosesStoreExample` | modules/tm/src/vmem_tx.c:564-576 | A concrete page whose buffered store is lost in a commit because its block was discarded |
| `Pages.DiscardKeepsStoreExample` | modules/tm/src/vmem_tx.c:591-604 | A concrete page whose store in place stays in memory after an abort because its block was discarded |
| `Pages.CommitLeavesView` | modules/tm/src/vmem_tx.c:564-576 | What the apply walk leaves of a writer-locked block is what its owner reads there |
| `FlatMemory.AccessKeepsImages` | modules/tm/src/vmem_tx.c:176-198 | Acquiring and preparing a page changes neither of the two images of memory, reports out-of-bounds exactly for a discarded block, and otherwise makes the bytes accessible under the lock the access needs |
| `FlatMemory.LoadedBytes` | modules/tm/src/vmem_tx.c:216-223 | What is copied from a prepared page, or from memory in write-through mode, is what the transaction sees there in flat memory |
| `FlatMemory.StoreKeepsSaved` | modules/tm/src/vmem_tx.c:273-280 | A store patches the image that the transaction sees at the stored addresses only, and keeps the image that an abort restores |
| `FlatMemory.TurnedImages` | modules/tm/src/vmem_tx.c:335-410 | Privatizing a block exchanges the two images in that block, discarding it makes both of them memory there, and neither changes them anywhere else |
| `FlatMemory.SwitchedNext` | modules/tm/src/vmem_tx.c:412-436 | Block by block, privatizing exchanges the images exactly in the blocks of the range that were not privatized before, each once, and discarding makes them memory exactly in the blocks of the range |
| `FlatMemory.SwitchedInvisibleIff` | modules/tm/src/vmem_tx.c:412-436 | Privatizing or discarding a range changes neither image if and only if the transaction has no store that changes memory in a block of it, where blocks that are privatized again do not count |
| `FlatMemory.Hindered` | modules/tm/src/vmem_tx.c:176-198 | If an access stops with an error, then not all blocks of its range were locked sufficiently before and not discarded |
| `FlatMemory.PrivatizeAfterStoreExample` | modules/tm/src/vmem_tx.c:345-379 | A concrete page with a buffered store whose value disappears from the transaction's view, and would be written by an abort, when its block is privatized |
| `FlatMemory.WalkMeaning` | modules/tm/src/vmem_tx.c:564-617 | For all pages, discarded or not, an apply walk leaves exactly the one image in memory and an undo walk exactly the other |
| `FlatMemory.DiscardMattersIff` | modules/tm/src/vmem_tx.c:564-617 | A walk leaves what it would leave without any discards if and only if no byte of a discarded block was stored in the way that this walk writes, and differs from memory |
| `FlatMemory.WrittenNext` | modules/tm/src/vmem_tx.c:564-604 | Writing pages one after the other, in any order of blocks, gives the image in which all of them are written |
| `VmemTx.TmPage.Ld` | modules/tm/src/page.c:63-96 | The loop fetches the selected bytes that are not valid yet, marks them valid, and leaves the rest of the buffer alone |
| `VmemTx.TmPage.St` | modules/tm/src/page.c:134-167 | The loop writes the selected valid bytes of the buffer to memory, and no other byte of memory |
| `VmemTx.TmPage.Prepare` | modules/tm/src/vmem_tx.c:232-255 | A page ends up locked and loaded as the access needs, keeps its lock if it has a sufficient one, reports a conflict only if it has not, and then changes nothing |
| `VmemTx.TmPage.Put` | modules/tm/src/page.c:42-49 | The bytes go to the buffer, or to memory alone in write-through mode |
| `VmemTx.OnePagePerBlock` | modules/tm/src/vmem_tx.c:103-141 | Two pages of an ordered list are for different blocks and have different buffers |
| `VmemTx.InsertKeepsOrder` | modules/tm/src/vmem_tx.c:120-141 | Inserting a page where the search stopped keeps the list strictly sorted |
| `VmemTx.VmemTx.FindPage` | modules/tm/src/vmem_tx.c:79-118 | The search ends at the page of the block if there is one, and otherwise at the one place that keeps the order |
| `VmemTx.VmemTx.AcquirePage` | modules/tm/src/vmem_tx.c:103-141 | Returns the one page of a block, from the list or newly inserted and empty, and keeps the list in order and all other pages as they were |
| `VmemTx.VmemTx.Ld` | modules/tm/src/vmem_tx.c:200-230 | For every address and size, the bytes returned are the transaction's own latest stores over memory: all of them, or those up to a conflict or the first discarded block, which is what out-of-bounds means; both images stay as they were. A conflict is about a block for which the transaction had no lock; if all blocks of the range were locked before and none discarded, all bytes are returned. Reader locks are taken for exactly the blocks that were passed, and no lock is weakened |
| `VmemTx.VmemTx.St` | modules/tm/src/vmem_tx.c:257-287 | For every address and data, the transaction sees exactly a prefix of the data patched in: all of it, or what lies before a conflict or the first discarded block; what an abort restores stays as it was. A conflict is about a block for which it had no writer lock; if it had one for all blocks of the range and had discarded none, everything is stored. Writer locks are taken for exactly the blocks that were passed |
| `VmemTx.VmemTx.PrivatizeRange` | modules/tm/src/vmem_tx.c:412-436 | For every address and size, exactly the blocks of the range up to an error become write-through, or else discarded; the images change places exactly in those of them that become write-through now, and become memory exactly in those that are discarded. A conflict is about a block for which the transaction did not have the lock that the flags ask for; if it had all of them and had discarded none of the blocks, there is no error |
| `VmemTx.VmemTx.PrivatizeChunk` | modules/tm/src/vmem_tx.c:335-410 | One iteration marks exactly one block, exchanges the images there if it was not privatized before, or makes both memory if it discards, and reports out-of-bounds exactly for a discarded block |
| `VmemTx.VmemTx.WritePages` | modules/tm/src/vmem_tx.c:564-617 | The walk over the page list writes every page's bytes to memory once, and leaves the list alone |
| `VmemTx.VmemTx.Finish` | modules/tm/src/vmem_tx.c:619-645 | The list is emptied, every page that was in it is unlocked, and memory stays as it is |
| `VmemTx.VmemTx.End` | modules/tm/src/vmem_tx.c:564-645 | The end of any transaction leaves in memory exactly the one image if it commits, and exactly the other if it rolls back |
| `LockWord.PackUnpack` | src/picotm-lib-rwlock.c:83-107 | The counter always survives packing, the index exactly if it is below 16 |
| `LockWord.UnpackPack` | src/picotm-lib-rwlock.c:83-107 | Every byte is the packing of its own counter and index, both below 16 |
| `LockWord.MinusKeepsIndex` | src/picotm-lib-rwlock.c:302-350 | The subtraction of an unlock never borrows from the index |
| `RwLock.RwLock.TryRdlock` | src/picotm-lib-rwlock.c:168-207 | Whatever other threads do between two accesses: succeeds exactly on a found word with less than 14 readers, no writer and no waiter, and adds one reader to it; a failed attempt leaves the word as found |
| `RwLock.RwLock.TryWrlock` | src/picotm-lib-rwlock.c:208-241 | Succeeds exactly on a found word with counter 0 and index 0, and makes it a writer's |
| `RwLock.RwLock.TryUplock` | src/picotm-lib-rwlock.c:243-287 | Succeeds exactly if the found word has counter 1, under any changes of the waiter index, which it keeps |
| `RwLock.RwLock.Unlock` | src/picotm-lib-rwlock.c:302-350 | Split into its load and its subtraction, it removes the caller's own share, keeps the index, and reports waiters exactly if the loaded word had some |
| `RwLock.RwLock.CompareExchangeIndex` | src/picotm-lib-rwlock.c:381-431 | For indices below 16, returns the index it found, which is the expected one exactly if the desired one was installed; the counter never changes |
| `RwLockProtocol.CounterIsExact` | src/picotm-lib-rwlock.c:168-350 | In every reachable state of any number of threads the counter is 15 with one writer and no reader, or it is the number of readers, at most 14, without a writer |
| `RwLockProtocol.WriterIsAlone` | src/picotm-lib-rwstate.c:60-114 | While one transaction's state says write-locked, every other one's says unlocked |
| `RwLockProtocol.UpgradeNeedsSoleReader` | src/picotm-lib-rwlock.c:243-287 | An upgrade goes through only when no other thread holds the lock |
| `RwLockProtocol.AssertionsHold` | src/picotm-lib-rwlock.c:243-350 | Holders never find a zero counter, and the delayed subtraction of an unlock never takes more than the counter holds |
| `RwLockProtocol.HalvesAreIndependent` | src/picotm-lib-rwlock.c:381-431 | In every reachable state, lock operations leave the index and index exchanges leave the counter |
| `RwLockProtocol.StepKeepsInv` | src/picotm-lib-rwlock.c:168-431 | Each load and each compare-and-swap of each thread keeps the counter invariant, with stale local copies allowed |
| `RwLockProtocol.RdlockAlone` | src/picotm-lib-rwlock.c:168-207 | When the other threads pause, an attempt for a reader lock ends with the lock held and one reader more if there are less than 14 readers, no writer and no waiter, and otherwise with nothing changed |
| `RwLockProtocol.WrlockAlone` | src/picotm-lib-rwlock.c:208-241 | Likewise for a writer lock, exactly if nobody holds the lock or waits |
| `RwLockProtocol.UplockAlone` | src/picotm-lib-rwlock.c:243-287 | Likewise for an upgrade, exactly for the only reader, whoever waits |
| `RwLockProtocol.UnlockAlone` | src/picotm-lib-rwlock.c:302-350 | An unlock takes the holder's own share off the counter and keeps the index |
| `RwLockProtocol.XchgAlone` | src/picotm-lib-rwlock.c:381-431 | An index exchange installs the new index exactly if it finds the expected one |
| `WaiterRuns.ListsAreChains` | src/picotm_lock_manager.c:244-506 | Under every interleaving of prepends, removals, time-outs and wakers, each list stays a duplicate-free chain from the index in the lock word to null; its members are exactly the threads that prepended themselves and have not removed themselves; packed next index and next pointer name the same owner unless its remover, which holds the mutex, is between the two writes |
| `WaiterRuns.AssertionsHold` | src/picotm_lock_manager.c:353-506 | The assertion at the end of find_prec_waiter is unreachable, the predecessor it returned is never stale, and a waiting flag belongs to a sleeping thread marked as reader or writer |
| `WaiterRuns.MutualExclusion` | src/picotm_lock_manager.c:310-403 | The owners locked along the walks are held by one thread each, and a thread that is not waiting holds none |
| `WaitAlone.WaitsAsAsked` | src/picotm_lock_manager.c:545-597 | After any run, a thread is busy with the list that it was asked to wait in, and with none exactly if it is idle; while it sleeps it is marked as reader or writer, and its waiting flag is set exactly until a waker clears it |
| `WaitAlone.SleepsAlone` | src/picotm_lock_manager.c:244-308 | In every reachable state, an idle thread that is asked to wait in a list, and whose own mutex is free, sleeps at the head of it after seven steps of its own, with both links to the former head, its flags set, and its mutex free |
| `WaitAlone.LeavesAlone` | src/picotm_lock_manager.c:353-506 | In every reachable state in which nobody else has locked an owner, a thread that has slept leaves its list by its own steps, in at most three for each waiter and ten more: the list is what it was without it, its flags are clear, all mutexes are free, and nobody else has changed |
| `WaiterSteps.PrependKeepsInv` | src/picotm_lock_manager.c:244-308 | Installing a new first index keeps all lists chains, although the first waiter was read before |
| `WaiterSteps.BeheadKeepsInv` | src/picotm_lock_manager.c:412-450 | So does removal from the header by compare-and-swap |
| `WaiterSteps.UnlinkKeepsInv` | src/picotm_lock_manager.c:450-506 | So does removal behind a predecessor |
| `WaiterSteps.WalkKeepsInv` | src/picotm_lock_manager.c:353-403 | In the hand-over-hand walk the searcher's own owner always stands behind the owner it has locked, whoever else leaves or joins the list |
| `WaiterSteps.FirstKeepsInv` | src/picotm_lock_manager.c:310-351 | The header always names a waiter to start from, since the searcher is still in the list |
| `WaiterSteps.NextKeepsInv` | src/picotm_lock_manager.c:244-597 | Every step of every thread and waker keeps the invariant |
| `WakerRuns.PicksLongestWaiting` | src/picotm_lock_manager.c:612-677 | While any number of threads join and leave and other wakers walk: at the moment at which a waker is about to wake its pick, that one is in the list, waits, and is marked as reader or writer, and everybody else in the list who waits was prepended after it |
| `WakerRuns.NoDeadlock` | src/picotm_lock_manager.c:755-811 | In every reachable state in which some thread is in the middle of waiting or some waker is at work, one of them can make a step, although all of them hold mutexes while they wait for others |
| `WakerRuns.ThreadsGoOn` | src/picotm_lock_manager.c:310-506 | The same for threads alone, next to wakers that lock whom they like, in every reachable state in which those hold no owner |
| `WakerRuns.HolderInListGoes` | src/picotm_lock_manager.c:310-403 | Whoever holds an owner in a list and has to wait does so for an owner behind it, so that some holder can go on |
| `WakerRuns.RestingWakersHoldNothing` | src/picotm_lock_manager.c:700-819 | When no waker is at work, no owner is locked by one |
| `WakeAlone.RouseWakes` | src/picotm_lock_manager.c:700-811 | In every run, the step with which a waker wakes its pick clears the waiting flag of that owner and changes nothing else; so does, for the reader that it has come to, a step of the walk that wakes all readers |
| `WakeAlone.WakesAlone` | src/picotm_lock_manager.c:612-819 | In every reachable state in which no owner is locked, a waker that is asked to wake a list comes to rest by its own steps, in at most nine for each waiter and ten more; it has cleared the flag of the one who has waited longest, or of all if it wakes readers, and no other, and has given all mutexes back |
| `WakeAlone.LastWaitingIs` | src/picotm_lock_manager.c:612-677 | The one who has waited longest is in the list and waits, everybody else who waits was prepended after it, and there is none exactly if nobody waits |
| `WakerRuns.JointNextKeepsInv` | src/picotm_lock_manager.c:244-819 | Every step of every thread and every waker keeps what each waker knows of its list, and that each owner locked by wakers is locked by one of them |
| `WakerSteps.WalkStable` | src/picotm_lock_manager.c:612-667 | What a waker knows of the list stays true when others join, leave and are woken, as long as they leave its own owners alone |
| `WakerSteps.ThreadRespects` | src/picotm_lock_manager.c:244-506 | No step of a thread moves, changes or removes an owner that a waker holds, changes the order of the others, or makes somebody wait who was found not waiting |
| `Engine.IrrevocableNeverConflicts` | src/picotm_lock_manager.c:200-238 | In every reachable state, a running irrevocable transaction is the only one inside, no other thread holds or waits for any data lock, and each of its lock attempts is granted |
| `Engine.ConflictsAreBounded` | src/picotm_tx.c:179-239 | A transaction that restarts because of conflicts only does so at most ten times, and a running one is irrevocable exactly if its restarts add up to ten or it asked for that |
| `Engine.ReleasedAfterFinish` | src/picotm_tx.c:385-430 | Whoever releases irrevocability, or waits to begin, holds no data lock; and the assertion about the exclusive owner holds |
| `Engine.RevocableBeyondTheLimit` | src/picotm_tx.c:179-239 | For every number of restarts above the limit there is a run that reaches it, and there the transaction is revocable again |
| `EngineRuns.DecisionLeads` | src/picotm.c:205-319 | Whatever the other threads do, a conflict leads to a run with one more restart, and one more of those that conflicts have caused; asking for irrevocability leads to an irrevocable run with one more restart; a restart from the recovery code to a run with one more restart; a commit to the end of the transaction; an error to its recovery code; and the first begin to a run without restarts: the thread is on its way there, or has come there without doing anything else before |
| `EngineRuns.RestartsAreCounted` | src/picotm_tx.c:179-239 | The restarts behind a running transaction are the conflicts and the requests that the run itself shows since the transaction began; it is irrevocable exactly if these are ten or the last one asked for that; and without requests there are at most ten conflicts |
| `EngineRuns.ArrivesAlone` | src/picotm_tx.c:385-430 | If no other thread is inside, a thread that is on its way gets there by its own steps, at most five more than there are data locks |
| `EngineRuns.TryLockMeans` | src/picotm-lib-rwlock.c:108-166 | In every reachable state, a running transaction gets a data lock exactly if it has one that suffices, or may have it beside the holders and nobody waits; otherwise it sleeps in the waiter list, and runs on when it is woken up, or it restarts; nobody else's hold on the lock changes |
| `EngineRuns.EntersIff` | src/picotm_lock_manager.c:200-238 | A revocable transaction begins to run exactly if no irrevocable one is inside, and an irrevocable one exactly if nobody is; otherwise they wait |
| `Engine.IrrevocableIsAlone` | src/picotm_lock_manager.c:200-238 | The invariant leaves no other thread between begin and release while an irrevocable transaction runs |
| `Engine.NextKeepsInv` | src/picotm.c:205-319 | Every step, with conflicts, errors, recovery and restarts, keeps the invariant that ties the exclusion lock, the exclusive owner, the transaction's place and its data locks |
| `Transaction.PicotmTx.WalkModules` | src/table.c:87-133 | The walk calls the modules in order, each once, and stops behind the first that fails |
| `Transaction.PicotmTx.ApplyEvents` | src/picotm_event.c:23-35 | The log is walked forwards, each event once, and is empty afterwards, also after an error |
| `Transaction.PicotmTx.UndoEvents` | src/picotm_event.c:37-51 | The log is walked backwards, each event once, and is empty afterwards, also after an error |
| `Transaction.PicotmTx.Begin` | src/picotm_tx.c:179-239 | First the exclusion lock, then the modules in order; a module that fails makes those that had begun finish, and releases irrevocability unless that fails too; which mode and retry counter result. Call by call: which call stands at which place, and how many there are, in each of the four outcomes |
| `Transaction.PicotmTx.Commit` | src/picotm_tx.c:355-401 | Call by call: module m is prepared at place m, with the transaction's mode, applied at place n + m, the i-th event applied at place 2n + i, module m finished behind all events, and irrevocability released last; without errors these are all calls, with an error a prefix of them, and the error can be recovered from exactly if preparing failed |
| `Transaction.PicotmTx.Rollback` | src/picotm_tx.c:403-430 | Call by call: module m is undone at place m, then the events from the last to the first, then module m is finished, up to the first error; irrevocability is released in any case, and last |
| `Transaction.AppliedBeforeFinished` | src/picotm_tx.c:355-401 | In a commit no module is finished before all modules and events have been applied, so locks released at finish cover every write |
| `CommitMemory.CommitReachesMemory` | src/picotm_tx.c:355-401 | If the transactional memory is among the modules and answers each call of a complete commit as its callbacks do, then the shared memory's history has grown by exactly what the transaction has loaded and stored, it holds no lock any more, and no other transaction has changed |
| `CommitMemory.RollbackReachesMemory` | src/picotm_tx.c:403-430 | If it answers those of a complete rollback, the history has grown by nothing but what the abort leaves behind |
| `Transaction.AppendLogged` | modules/txlib/src/txlib_tx.c:270-306 | The engine's log entries of a module stay numbered consecutively from its own event array, with other modules' entries between them |
| `Transaction.ForwardEffects` | modules/txlib/src/txlib_tx.c:420-431 | Walking the common log forwards applies exactly this module's events, in their order |
| `Transaction.BackwardEffects` | modules/txlib/src/txlib_tx.c:433-444 | Walking the common log backwards undoes exactly this module's events, in reverse |
| `Transaction.CommitTakesEffect` | src/picotm_tx.c:355-401 | A whole commit leaves all queues, stacks, lists and multisets as if the transaction's operations had been made on plain sequences: pushed at the end, popped at the front or the end, an entry linked right before its position or at the end, a key put in its place, an entry or a key taken out; whatever else is in the log |
| `Transaction.RollbackTakesEffect` | src/picotm_tx.c:403-430 | A whole rollback leaves all of them, shared and local, as they were before the transaction |
| `WakeUp.PickWaiter` | src/picotm_lock_manager.c:612-667 | On a list that stays as it is, of any length: picks the best of all waiting owners under the strategy (the last one for longest waiting); on return exactly the first and the picked owner are locked, after an error, which needs an owner whose lock can fail, only the first |
| `WakeUp.Consider` | src/picotm_lock_manager.c:612-698 | Comparing one more waiter keeps the picked one the best so far, and drops the lock of the one that loses |
| `WakeUp.WakeUpWaiters` | src/picotm_lock_manager.c:700-819 | On a list that stays as it is: ends with every owner unlocked, with or without errors, wakes nobody whose waiting flag is clear, fails only if some owner's lock can fail, and otherwise wakes the longest waiting owner and, if that one is a reader and it is allowed, all waiting readers |
| `WakeUp.WakeUpReaders` | src/picotm_lock_manager.c:755-811 | On a list that stays as it is: the second walk wakes exactly the waiting readers and leaves nothing locked |
| `TxLib.UndoInvertsExec` | modules/txlib/src/txlib_event.c:101-232 | For each of the eight logged operations, undoing its event restores the shared and the local sequence |
| `TxLib.UndoRestores` | modules/txlib/src/txlib_event.c:216-232 | After any interleaving of operations on any number of queues, stacks, lists and multisets, walking the log backwards restores every sequence exactly |
| `TxLib.UndoPassesThrough` | src/picotm_event.c:37-51 | The backward walk passes through the states of the run: after undoing all but the first k events, every sequence is as the first k operations had left it |
| `TxLib.StackUndoFindsTop` | modules/txlib/src/txstack_tx.c:283-290 | When the backward walk comes to a push to a stack, the entry is the top of the local stack, as the source asserts |
| `TxLibRuns.Serializable` | modules/txlib/src/txlib_tx.c:402-517 | For every interleaving of any number of transactions on shared queues, stacks, lists and multisets, one event of a commit or rollback at a time: the committed ones, run one after the other directly on plain sequences in the order in which their apply walks ended, are a correct serial run in which each pop returns the same entry and each look sees the same contents; each structure that is not locked for writing is as that run leaves it |
| `TxLibRuns.RunningSeesCommittedOnly` | modules/txlib/src/txqueue_tx.c:90-237 | What a running transaction has done so far, with what it has seen and popped, is a correct direct run after the committed ones |
| `TxLibRuns.DirectFollows` | modules/txlib/src/txqueue_tx.c:175-237 | What a transaction does with local sequences under its locks can be done directly on the shared structures with the same results |
| `TxLibRuns.DirectReplayIsRun` | modules/txlib/src/txlib_event.c:79-95 | The serial run of a transaction leads to where its operations, run directly, lead |
| `TxLibRequests.RequestsDecide` | modules/txlib/src/txlib_tx.c:402-517 | What a schedule asks for decides everything: the shared structures that nobody has locked for writing are what the requests of the committed transactions make of plain sequences when they are performed alone, one transaction after the other, and each pop and each look gave what it gives in that serial run; so did those of a transaction that still runs, performed after these |
| `TxLibRequests.LogsAreAsked` | modules/txlib/src/txlib_tx.c:270-306 | After any schedule, the log of a transaction is what was asked of it since its last walk ended, operation by operation; it holds the locks that the schedule has taken and not given back; and the history holds the logs of exactly those transactions that were asked to commit |
| `TxLibProgress.CanCommit` | modules/txlib/src/txlib_tx.c:402-517 | In every reachable state, a running transaction can commit by its own steps alone unless another one has locked a queue or stack that it has pushed to; then the history has grown by its log, and it holds no lock any more |
| `TxLibProgress.CanAbort` | modules/txlib/src/txlib_event.c:216-232 | It can abort by its own steps in any case, and then nothing of it counts |
| `TxLibProgress.CanExecute` | modules/txlib/src/txqueue_tx.c:175-237 | A legal operation is done whenever no other transaction has a lock that excludes the one that it needs; pushing, and popping own entries off a stack, need none |
| `TxLibProgress.CanLook` | modules/txlib/src/txqueue_tx.c:90-169 | A look is granted whenever no other transaction has locked the structure for writing |
| `TxLibRuns.StepKeepsInv` | modules/txlib/src/txlib_tx.c:402-517 | Every lock, operation, event and release of every transaction keeps the invariant |
| `TxLibViews.ExecViews` | modules/txlib/src/txstack_tx.c:159-214 | An operation is legal, gives the same event and has the same effect wherever the local sequences and the structures that it takes a lock for are the same |
| `TxLibViews.UndoneViews` | modules/txlib/src/txlib_event.c:101-232 | Undoing the last operation restores what the transaction depended on before it, whatever others have done to structures that it has no lock for, and changes no such structure |
| `TxLib.ReplayMovesAll` | modules/txlib/src/txqueue_tx.c:288-304 | Replaying pushes moves all local entries behind the shared ones, in order, whenever they occur in the pushes in that order, with repetitions between them allowed |
| `TxLib.CommitPublishes` | modules/txlib/src/txqueue_tx.c:175-311 | After any legal run, also one that pushes, pops and pushes an entry again, the replay gives shared followed by local, in order, and empty local sequences, for every queue and stack |
| `TxLib.CommitIsDirect` | modules/txlib/src/txstack_tx.c:159-290 | A committed run gives what its operations, one by one, make of plain sequences (an entry is linked right before its position or at the end, a key put before the first larger one, an entry or key taken out of its place), and these operations are legal there |
| `TxLib.RunIsDirect` | modules/txlib/src/txstack_tx.c:159-263 | At every moment of a run, shared and local together are what direct operations would have made |
| `TxLib.DirectMeans` | modules/txlib/src/txlist_tx.c:160-256 | After a direct insertion, the entry stands right before its position, or is the last, and the list without it is the old one; after a removal, putting the entry before its old successor gives the old list; the members of a list or multiset are the old ones with or without the one in question, without repetitions, and keys increase |
| `TxLib.MergedQueuePop` | modules/txlib/src/txqueue_tx.c:205-237 | A queue pop takes the front of shared and local together |
| `TxLib.MergedStackPop` | modules/txlib/src/txstack_tx.c:189-214 | A stack pop takes the top of shared and local together |
| `TxLib.ApplyAllBySplit` | modules/txlib/src/txlib_event.c:79-95 | The replay treats each queue and stack independently of the order between them, and leaves lists and multisets alone |
| `TxLib.ExecutionIsLocked` | modules/txlib/src/txqueue_tx.c:205-237 | In any run, a shared sequence that has changed is one whose writer lock has been taken |
| `TxLib.CommitIsLocked` | modules/txlib/src/txlib_tx.c:402-418 | The replay changes no shared sequence without the lock taken while executing or preparing |
| `TxLib.RollbackIsLocked` | modules/txlib/src/txlib_event.c:216-232 | At every point of the backward walk, a shared sequence that differs from before is locked |
| `TxLib.EraseUndoesInsert` | modules/txlib/src/txlist_tx.c:160-210 | Erasing an inserted list entry gives the list before the insertion, at every position |
| `TxLib.InsertUndoesErase` | modules/txlib/src/txlist_tx.c:216-266 | Inserting an erased list entry before its remembered successor gives the list before the removal |
| `TxLib.InsertKey` | modules/txlib/src/txmultiset_tx.c:126-178 | Inserting a new key keeps the keys increasing, and erasing it again restores them |
| `TxLib.EraseKey` | modules/txlib/src/txmultiset_tx.c:184-236 | Erasing a key keeps the keys increasing, and inserting it again restores them |
| `TxStructures.LockState.TryLock` | src/picotm-lib-rwstate.c:60-99 | A refused attempt changes nothing, a granted one never weakens a lock, and a lock that is held already is never refused |
| `TxStructures.TxQueue.ExecPop` | modules/txlib/src/txqueue_tx.c:175-237 | Over linked entries: takes the front of the shared queue, else of the local one, under the writer lock where the shared queue changes; refused, it changes nothing |
| `TxStructures.TxQueue.ApplyPush` | modules/txlib/src/txqueue_tx.c:288-304 | Moves the entry between two rings exactly if it is the next local one |
| `TxStructures.TxQueue.UndoPush` | modules/txlib/src/txqueue_tx.c:306-311 | Takes the entry out of the local ring, wherever it stands, and leaves it unlinked |
| `TxStructures.TxQueue.UndoPop` | modules/txlib/src/txqueue_tx.c:239-250 | Puts the entry back in front of the queue that it came from |
| `TxStructures.TxQueue.ExecFront` | modules/txlib/src/txqueue_tx.c:133-148 | Returns the entry that a pop would return, or the local head if there is none, under a lock |
| `TxStructures.TxQueue.ExecBack` | modules/txlib/src/txqueue_tx.c:154-169 | Returns the last entry of shared and local together, or the shared head, and needs no lock if there are local entries |
| `TxStructures.TxQueue.ExecSize` | modules/txlib/src/txqueue_tx.c:113-127 | Returns the number of shared and local entries together |
| `TxStructures.TxQueue.ExecEmpty` | modules/txlib/src/txqueue_tx.c:90-107 | Tells whether a pop would find an entry |
| `TxStructures.TxQueue.Lock` | modules/txlib/src/txqueue_tx.c:317-332 | If granted, a queue with entries to publish is write-locked |
| `TxStructures.TxStack.ExecPop` | modules/txlib/src/txstack_tx.c:159-214 | Takes the top of the local stack, else of the shared one, under the writer lock where the shared stack changes; refused, it changes nothing |
| `TxStructures.TxStack.ApplyPush` | modules/txlib/src/txstack_tx.c:265-281 | Moves the entry exactly if it is the bottom local one, found out from the entry's own link |
| `TxStructures.TxStack.BottomOfLocal` | modules/txlib/src/txstack_tx.c:265-281 | Only the bottom entry's link leads to the head |
| `TxStructures.TxStack.UndoPush` | modules/txlib/src/txstack_tx.c:283-290 | Takes the top entry off the local stack and leaves it unlinked |
| `TxStructures.TxStack.UndoPop` | modules/txlib/src/txstack_tx.c:216-227 | Puts the entry back on top of the stack that it came from |
| `TxStructures.TxStack.ExecTop` | modules/txlib/src/txstack_tx.c:138-153 | Returns the entry that a pop would return, or the shared head, and needs no lock if there are local entries |
| `TxStructures.TxList.ExecInsert` | modules/txlib/src/txlist_tx.c:160-201 | Under the writer lock, the entry is in the list right before the given one; refused, nothing changes |
| `TxStructures.TxList.ExecErase` | modules/txlib/src/txlist_tx.c:216-256 | Under the writer lock, the entry is out of the list, and the event remembers its successor of before |
| `TxStructures.TxList.ExecClear` | modules/txlib/src/txlist_tx.c:434-474 | The list is empty, with one event for each entry in order, each naming the successor at its removal |
| `TxStructures.TxList.Undo` | modules/txlib/src/txlist_tx.c:203-266 | Over linked entries, undoes the insertion or removal of the event: takes the entry out, wherever it stands, or links it before the remembered successor |
| `TxStructures.ErasedIsRemoved` | modules/txlib/src/txlist_entry.c:120-131 | Without duplicates, erasing an entry by its name and by its position is the same |
| `TxStructures.InsertedIsBefore` | modules/txlib/src/txlist_entry.c:105-118 | Without duplicates, inserting before the entry that stands at a position, or before the head, and inserting at that position is the same |
| `Rings.Ring.Insert` | modules/txlib/src/txlist_entry.c:105-118 | Linking an entry before another one inserts it there in the sequence and keeps both directions of the ring consistent |
| `Rings.Ring.Erase` | modules/txlib/src/txqueue_entry.c:100-114 | Unlinking takes exactly that entry out of the sequence |
| `Rings.Ring.Size` | modules/txlib/src/txqueue_entry.c:120-131 | The counting loop ends with the number of entries |
| `Rings.Pile.Insert` | modules/txlib/src/txstack_entry.c:72-83 | Linking an entry below another one inserts it there |
| `Rings.Pile.Erase` | modules/txlib/src/txstack_entry.c:85-96 | Unlinking, given the entry above, takes exactly that entry out |
| `Rings.Pile.NextOf` | modules/txlib/src/txstack_tx.c:66-77 | The walk from the top ends at the entry above |
| `Rings.Pile.Size` | modules/txlib/src/txstack_entry.c:102-113 | The counting loop ends with the number of entries |
| `Multiset.Multiset.Begin` | modules/txlib/src/txmultiset_entry.c:122-126 | Returns the first entry of the in-order sequence, or the head |
| `Multiset.Multiset.Next` | modules/txlib/src/txmultiset_entry.c:136-152 | Descending or climbing leads to the in-order successor, and from the last entry to the head |
| `Multiset.Multiset.Prev` | modules/txlib/src/txmultiset_entry.c:154-165 | The inverse: leads to the in-order predecessor, and from the head to the last entry |
| `Multiset.Multiset.BottomMostLt` | modules/txlib/src/txmultiset_entry.c:78-85 | Ends at the first entry of the subtree |
| `Multiset.Multiset.BottomMostGe` | modules/txlib/src/txmultiset_entry.c:87-94 | Ends at the last entry of the subtree |
| `Multiset.Multiset.NearestLtParent` | modules/txlib/src/txmultiset_entry.c:99-107 | Ends at the entry behind everything in the subtree, or the head |
| `Multiset.Multiset.NearestGeParent` | modules/txlib/src/txmultiset_entry.c:112-120 | Ends at the entry before everything in the subtree |
| `Multiset.Multiset.Insert` | modules/txlib/src/txmultiset_entry.c:217-262 | If the entry met with an equal key, if any, has no lt child, the links spell a valid ordered tree with the entry inserted in the sorted sequence; if it has one, they spell no tree at all |
| `Multiset.Multiset.InsertAt` | modules/txlib/src/txmultiset_entry.c:200-215 | The entry takes the place of the one with an equal key; whether a tree results depends on the lt child in both directions |
| `Multiset.Multiset.Erase` | modules/txlib/src/txmultiset_entry.c:264-323 | The tree stays linked and ordered, the in-order sequence loses exactly that entry, and the entry is unlinked |
| `Multiset.Multiset.PullUp` | modules/txlib/src/txmultiset_entry.c:264-323 | Hanging a child in the place of an entry relinks the tree above it consistently and leaves the other child's subtree alone |
| `Multiset.Multiset.PushDown` | modules/txlib/src/txmultiset_entry.c:264-323 | Hanging the lt side below the first entry of the ge side puts it at its place in the order |
| `Multiset.Multiset.Find` | modules/txlib/src/txmultiset_entry.c:325-353 | Returns the entry that the search meets, or the head |
| `Multiset.Multiset.Size` | modules/txlib/src/txmultiset_entry.c:359-370 | Stepping from begin to the head counts every entry once |
| `Multiset.FoundIff` | modules/txlib/src/txmultiset_entry.c:325-353 | In an ordered tree, the search meets an entry with the key if and only if there is one |
| `Multiset.InsertsKey` | modules/txlib/src/txmultiset_tx.c:126-168 | With distinct keys, inserting an entry inserts its key into the sorted keys |
| `Multiset.ErasesKey` | modules/txlib/src/txmultiset_tx.c:184-226 | With distinct keys, erasing an entry erases its key from the sorted keys |
| `Multiset.EqualKeyExample` | modules/txlib/src/txmultiset_entry.c:200-215 | Inserting the keys 2, 1 and 2 leaves links that spell no tree |
| `Multiset.PlugLinked` | modules/txlib/src/txmultiset_entry.c:184-198 | A tree is consistently linked if and only if the path to a place and the subtree there are |
| `Radix.ComputeTreeDepth` | src/picotm-lib-shared-treemap.c:148-160 | The loop computes the least number of levels, rounding up |
| `Radix.DepthCovers` | src/picotm-lib-shared-treemap.c:148-160 | The levels together have at least as many bits as the key, and one level less has not |
| `Radix.KeysFit` | src/picotm-lib-shared-treemap.c:148-160 | Every key of the given width lies below the root of a tree of that depth |
| `Radix.PathsAreInjective` | src/picotm-lib-shared-treemap.c:241-278 | Keys with the same prefix above the root and the same index at every level are equal |
| `Radix.PrefixUp` | src/picotm-lib-treemap.c:217-235 | Prefix and index of one level make up the prefix of the level below, and the other way round |
| `Radix.PrefixTop` | src/picotm-lib-treemap.c:171-192 | A key fits below the root if and only if it is below the power for the depth |
| `Radix.PrefixRange` | src/picotm-lib-treemap.c:223-228 | The keys with a given prefix are exactly an interval |
| `SharedTreemap.PublishedForGood` | src/picotm-lib-shared-treemap.c:205-239 | In any continuation of any run, a slot that has been filled keeps its object, and results that were returned stay |
| `SharedTreemap.RefinesMap` | src/picotm-lib-shared-treemap.c:205-347 | In every step, a call that returns gives what the map holds for its key at that moment, and a key changes only by getting its first value in the step in which the call that made it returns; so null is returned only while the key is absent |
| `SharedTreemap.CallsSucceed` | src/picotm-lib-shared-treemap.c:254-347 | No call dereferences null, and a creating call never returns null |
| `SharedTreemap.EverythingFreedOnce` | src/picotm-lib-shared-treemap.c:185-317 | Once all calls have returned, the objects that creators discarded and those that teardown frees are together all that were ever created, each exactly once |
| `SharedTreemap.TeardownFreesTree` | src/picotm-lib-shared-treemap.c:185-203 | In every reachable state, teardown frees exactly the published objects, each once |
| `SharedTreemap.CleanupCounts` | src/picotm-lib-shared-treemap.c:94-140 | The recursion frees each object published below a place once and nothing else |
| `SharedTreemap.AncestorPublished` | src/picotm-lib-shared-treemap.c:254-278 | Above a published object everything up to the root is published |
| `SharedTreemap.PublishKeepsInv` | src/picotm-lib-shared-treemap.c:205-239 | A successful compare-and-swap fills exactly one empty place with an object made for it, from nobody else's hands |
| `SharedTreemap.NextKeepsInv` | src/picotm-lib-shared-treemap.c:205-347 | Every step of every call keeps the invariant |
| `TreemapCalls.ResultsAnswerCalls` | src/picotm-lib-shared-treemap.c:321-347 | After any list of actions, each result belongs to a call in the list that was accepted (its key fits and its thread had no call under way), with that call's key and its choice to create, and no call has two; each accepted call has a result or is the one that its thread has under way; and a thread is idle exactly if it has none |
| `TreemapCalls.OneValuePerKey` | src/picotm-lib-shared-treemap.c:280-347 | Among all calls that have returned a value, two have returned the same one exactly if they asked for the same key, and it was created for that key |
| `TreemapCalls.Linearizable` | src/picotm-lib-shared-treemap.c:205-347 | In every run of any number of threads, the calls of the list of actions that have returned, in the order in which they did, get the values that a finite map gives if these calls are made on it one after the other, and the tree holds what that map holds |
| `TreemapCalls.RealTimeOrder` | src/picotm-lib-shared-treemap.c:205-347 | A call that has returned before another one is made comes before it in that order |
| `TreemapCalls.CallsReturn` | src/picotm-lib-shared-treemap.c:205-317 | Whatever the other threads do, a call returns within five steps of its own thread for each level of the tree and for the value |
| `FrameMap.InitTable` | modules/tm/src/framemap.c:41-50 | The frames of a table stand for consecutive blocks from the table's key on |
| `FrameMap.FrameOfAddress` | modules/tm/src/framemap.c:112-122 | The frame that an address leads to has the address rounded down to a block |
| `FrameMap.SamePlaceIff` | modules/tm/src/framemap.c:112-122 | Two addresses lead to the same entry of the same table if and only if they lie in the same block |
| `FrameMap.AddressesFit` | modules/tm/src/framemap.c:92-104 | The map has 6 levels, which cover the table key of every 64-bit address |
| `FrameMap.OneFramePerBlock` | modules/tm/src/framemap.c:124-140 | In every concurrent run, two look-ups that were made for two addresses give the same frame, and so the same lock, if and only if the addresses lie in the same block |
| `FrameMap.LookUpReturns` | modules/tm/src/framemap.c:124-140 | A look-up of any 64-bit address by a thread without a call under way has returned after 35 steps of its own |
| `Treemap.Treemap.GrowTree` | src/picotm-lib-treemap.c:171-192 | Growth terminates, keeps every key's value, ends with the key below the root, and adds no level more than that needs |
| `Treemap.Treemap.RetrieveDir` | src/picotm-lib-treemap.c:194-215 | Returns the directory of the place, which is created on demand, and keeps all contents |
| `Treemap.Treemap.LookupValueEntry` | src/picotm-lib-treemap.c:237-263 | The descent ends at the slot for the key, or finds none only if the key is not in the map |
| `Treemap.Treemap.FindValue` | src/picotm-lib-treemap.c:291-327 | As an operation on a finite map: returns the key's value, creates it if asked to and missing, and changes no other key, however much the tree grows |
| `Treemap.Treemap.ForEachValue` | src/picotm-lib-treemap.c:397-445 | The walk calls back exactly once for each stored pair, with the key as it was stored, in strictly increasing order of keys, within a stack of depth + 1 slots |
| `Treemap.Treemap.VisitDir` | src/picotm-lib-treemap.c:336-389 | One round at a directory pushes the next entry or pops, stays within the stack, and moves on in the order of keys |
| `Treemap.Treemap.SkipEmpty` | src/picotm-lib-treemap.c:350-380 | Passing empty slots passes no key |
| `Treemap.Treemap.CleanupDir` | src/picotm-lib-treemap.c:97-141 | Every value and directory below a directory, and the directory, is destroyed exactly once |
| `Treemap.Treemap.Uninit` | src/picotm-lib-treemap.c:151-169 | Every value and every directory of the map is destroyed exactly once, and nothing else |
| `Treemap.GrownOk` | src/picotm-lib-treemap.c:171-192 | A new root above the old one leaves what every old place stands for |
| `Treemap.NoKeyBelow` | src/picotm-lib-treemap.c:237-263 | No key lies below a place without a directory |
| `Treemap.AllKeysBelow` | src/picotm-lib-treemap.c:397-445 | The walk's end position is beyond every key |

## Left out

- Allocation failures, operating-system errors and failing mutexes, except the failing lock operations of the wake-up code.
- `tm_vmem_tx_ldst`, `tm_vmem_tx_privatize_c` and `tm_page_ld_c`.
- Serializability.StepKeepsInv: a page and its lock come together, and copying bytes within one block is one step, since the block is locked meanwhile.
- VmemTx.VmemTx.PrivatizeRange: flags other than those for loads, for stores and for discarding, with which the source would exchange page and memory, are not part of this model.
- VmemTx.Memory: memory is a sequence of bytes that starts at address 0 and consists of whole blocks; aliasing with the transaction's own C buffers is not modelled.
- Weak memory ordering: atomics are sequentially consistent.
- Waiting times, lost and late wake-ups, and fairness: the statements about waiters are about safety, and about what a thread or a waker comes to when the others pause.
- WakeUp.WakeUpWaiters: has a list that stays as it is, and not the branch after a failed signal, which unlocks an owner twice; wakers among threads that join and leave are in `WakerRuns`.
- WakeUp.PickWaiter: has a list that stays as it is (`WakerRuns.PicksLongestWaiting` has one that changes).
- WakeUp.WakeUpReaders: has a list that stays as it is (`WakerSteps.WalkStable` has one that changes).
- CommitMemory.CommitReachesMemory: the memory module's steps follow each other without steps of other transactions between them (`CommitRequests.EndedWalkCounts` allows those).
- CommitRequests.RequestsDecide: needs careful privatizing and discarding; for all schedules, `CommitRequests.LogsAreAsked` says which stores these may add to a log, and `Serializability.CarelessIff` when.
- WakerRuns.PicksLongestWaiting: has the longest waiting owner, which is what the source always picks, and no failing mutexes.
- The table of lock owners: an owner's index is its identity, and registration is not modelled. Indices above 15 do not fit the lock word (`LockWord.PackUnpack`).
- Radix.PrefixUp: keys are unbounded; shifts by the word width or more, which C does not define, do not arise as such.
- Treemap.Treemap.constructor: needs levels of at least one bit; with none, growth would not end. Level 0 values are never null, so the value that `value_create` makes is not either.
- TreemapCalls.OneValuePerKey: `value_create` and `value_destroy` are single steps without effects of their own.
- Multiset.Multiset.Prev: is not defined for the first entry, for which the source fails an assertion.
- Treemap.Treemap.ForEachValue: the callback does not fail; in the source, an error ends the walk.
- Multiset lower bound, upper bound and count; the multiset's clear operation, which erases entry by entry.
- TxLib.UndoRestores: a pop of an empty queue or stack is not a legal operation, as in the source, whose callers have to make sure that there is an entry; multisets have distinct keys, since for equal ones the tree may break (`Multiset.Multiset.Insert`).
- TxLibRuns.Serializable: an operation that only looks (front, back, size, empty, find) is a look at the whole structure under a lock; where the source answers from local entries alone, without a lock, there is no step.
- List operations at the front and the back, which are insertions and removals at these positions.
- What module callbacks do: in `Transaction` they are arbitrary calls that may fail, apart from those of the data structures.
- `setjmp`, `longjmp` and thread-local state; the public wrappers that restart after an error are the restart steps of `Engine`.
- Timestamps are integers; `picotm_os_sub_timespec` and the computation of time-outs are not part of this model.
- The modules for libc, libm, libpthread, casts and arithmetic.
