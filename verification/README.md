# Verified models of mycelium's concurrency and memory-management core

The project models, in Dafny 4.11, the lock-free and lock-plus-atomic protocols of
`cordyceps` and `maitake-sync` and the memory-management code of `alloc`, `hal-core`,
`hal-x86_64` and `bitfield`, and proves what they promise. `dafny verify dfyconfig.toml`
checks all of it.

| file | what it models | form |
|---|---|---|
| `MpscQueue.dfy` | the Vyukov multi-producer single-consumer queue | step machine; class for the calls run alone |
| `Semaphore.dfy`, `RwLock.dfy` | the fair counting semaphore and the lock built on it | step machine |
| `WaitCell.dfy` | the one-waker cell | step machine |
| `TransferStack.dfy` | the Treiber-style stack and the stacks it hands out | step machine |
| `Paging.dfy`, `PageMapping.dfy` | 4-level page tables behind a recursive entry: the hardware walk, software translation, `map_page` | functions; class over physical memory |
| `List.dfy` | the intrusive doubly linked list | class over linked nodes |
| `Buddy.dfy`, `PowersOfTwo.dfy` | the buddy allocator and its arithmetic | class over free lists; functions |
| `Bitfield.dfy`, `Segment.dfy` | packing specs of any word width, and the TSS descriptor | functions |
| `Sequences.dfy`, `Wrappers.dfy` | shared helpers | functions |

**Step machines.** A state holds the shared memory and one program counter per thread; an
action is a call or the next single access of a thread to shared memory, with its outcome.
`Runs(s, run)` says that a sequence of actions is possible and `Exec(s, run)` is where it
ends, so a statement about `Exec` for every `run` from an `Initial` state is a statement about
every interleaving of any number of threads. Memory is sequentially consistent; a weak
exchange may fail for no reason.

**Findings.** Where a promise does not hold of the code, the exact condition is a statement of the project:

- `Empty` from the queue is wrong exactly behind a half-finished enqueue (`MpscQueue.EmptyMeans`);
  `MpscQueue.EmptyBehindStub` and `MpscQueue.EmptyBeforeStub` are runs in which it is.
- `next_table` ignores the huge bit. Under a 2M or 1G page `translate_page` reads the data as
  tables (`Paging.TranslateMisreads`, `Paging.TranslateMisreadsHuge`, `Paging.TranslateDisagrees`)
  and `map_page` writes into them without mapping anything (`PageMapping.MapExact`,
  `PageMapping.MapUnder2Mb`, `PageMapping.MapDisagrees`), under a 1G page possibly over a whole
  4K of them (`PageMapping.MapUnder1Gb`, `PageMapping.DataLost`). A stale huge bit in the free entry 511
  spoils the recursive mapping (`PageMapping.AddRecursiveWorks`).
- `prev_power_of_two` is wrong for powers of two and for one more than a power of two
  (`PowersOfTwo.PrevPow2Right`), so `add_region` panics on sizes one byte above a multiple of
  the smallest block (`Buddy.Alloc.AddRegion`).
- `alloc_inner` slices past its lists when the heap is larger than the largest order
  (`Buddy.Alloc.AllocInner`); `Buddy.Overrun` gets there with four regions.
- `take_buddy` looks at a distance that is shorter than a block, so two blocks of one order are
  never coalesced (`Buddy.NothingMerged`, `Buddy.FreeAfterAlloc`). What it can meet there is a
  smaller free block, exactly under the condition of `Buddy.HeaderMet`; the assertion on its size
  then fails and the block cannot be freed (`Buddy.Unfreeable`), and a build without assertions
  removes the node from a list it is not on (`List.List.RemoveStray`). A heap of one region is
  safe from it (`Buddy.OneRegion`).
- A field after an empty one starts at bit 0 (`Bitfield.LayoutContiguous`).

**Inputs from outside.** Frames handed out by the frame allocator, the handles that callers own
and the wakers of tasks are parameters. Panics are results: a method
that can panic returns a value that says so.

## Model

| member | source | states |
|---|---|---|
| `MpscQueue.StepKeeps` | cordyceps/src/mpsc_queue.rs:565-759 | every step of every thread (call, null store, head swap, link store, lock, each access of a dequeue) keeps the chain invariant: distinct nodes from tail to head, each null link inside it owned by exactly one half-finished enqueue; and it appends or removes exactly the element it reports |
| `MpscQueue.PendingUnique` | cordyceps/src/mpsc_queue.rs:576-585 | two half-finished enqueues never wait to write the same link |
| `MpscQueue.Fifo` | cordyceps/src/mpsc_queue.rs:719-759 | for every run of any number of producers and the consumer: the handles returned, followed by the elements still chained (without the stub), are the handles in the order in which their enqueues swapped the head; so nothing is lost, duplicated or reordered |
| `MpscQueue.NoStrayStore` | cordyceps/src/mpsc_queue.rs:576-585 | in every run, a pending link store never goes to a node a caller owns, and no other thread is about to write that link |
| `MpscQueue.SingleConsumer` | cordyceps/src/mpsc_queue.rs:797-816 | in every run at most one thread is on the consumer side, and the flag is set while it is |
| `MpscQueue.EmptyMeans` | cordyceps/src/mpsc_queue.rs:719-759 | for every run, a dequeue that says `Empty` is wrong, with elements queued, exactly if some enqueue is between its swap and its store of the link behind the tail |
| `MpscQueue.EmptyBehindStub` | cordyceps/src/mpsc_queue.rs:724-728 | a run from the start in which a producer stalls behind the stub and a dequeue says `Empty` over its element |
| `MpscQueue.EmptyBeforeStub` | cordyceps/src/mpsc_queue.rs:739-750 | a run from the start in which a producer swaps just before the stub is put back, and the dequeue says `Empty` while its tail is still queued |
| `MpscQueue.QuiescentLinks` | cordyceps/src/mpsc_queue.rs:321-337 | with no enqueue in progress no link inside the chain is null, so the inconsistent state cannot be seen |
| `MpscQueue.QuiescentDequeue` | cordyceps/src/mpsc_queue.rs:719-759 | from every invariant state with no enqueue in progress, wherever the stub is, a dequeue run alone returns the oldest element, says `Empty` exactly if there is none, and is never `Inconsistent` |
| `MpscQueue.EnqueueAlone` | cordyceps/src/mpsc_queue.rs:575-586 | from every invariant state, whatever other threads are doing, the accesses of an enqueue by any idle thread, run without interruption, extend the chain by its node |
| `MpscQueue.Queue.constructor` | cordyceps/src/mpsc_queue.rs:445-462 | a new queue holds the stub alone and satisfies the invariant |
| `MpscQueue.Queue.EnqueueInner` | cordyceps/src/mpsc_queue.rs:575-586 | the new head and links, exactly |
| `MpscQueue.Queue.Enqueue` | cordyceps/src/mpsc_queue.rs:565-572 | run alone: the element joins at the end and leaves the caller |
| `MpscQueue.Queue.TryDequeueUnchecked` | cordyceps/src/mpsc_queue.rs:719-759 | run alone, the imperative call and the step machine end in the same state with the same answer, from every state |
| `MpscQueue.Queue.DropAll` | cordyceps/src/mpsc_queue.rs:819-857 | dropping the queue drops each queued element once, oldest first, and the stub once unless it is static |
| `Semaphore.StepKeeps` | maitake-sync/src/semaphore.rs:463-774 | every step keeps the invariant: the lock has one holder, queued waiters are distinct and lack permits, only the oldest is partly granted, and no permit is free while anybody is queued |
| `Semaphore.KeepTry` | maitake-sync/src/semaphore.rs:491-573 | one turn of the loop in `poll_acquire` (lock, retry, partial or full take) keeps the invariant |
| `Semaphore.KeepAdd` | maitake-sync/src/semaphore.rs:587-630 | adding what was taken to the waiter, then completing or queueing it, keeps the invariant |
| `Semaphore.KeepDrop` | maitake-sync/src/semaphore.rs:711-735 | cancelling a queued future removes it from the queue, gives its grant back and keeps the invariant |
| `Semaphore.KeepGive` | maitake-sync/src/semaphore.rs:651-681 | each waiter served by a release keeps the invariant, whether it is completed or partly granted |
| `Semaphore.StepConserves` | maitake-sync/src/semaphore.rs:463-774 | every step changes the total of permits exactly by what the caller supplied or forgot |
| `Semaphore.Conservation` | maitake-sync/src/semaphore.rs:634-735 | in every run: counter + grants of queued or woken futures + live permits + permits in the hands of calls in progress = initial + added - forgotten, with re-polls racing a grant and futures dropped while queued |
| `Semaphore.NoStranding` | maitake-sync/src/semaphore.rs:521-572 | in every run a non-empty queue means the counter is 0, so a step takes from the counter only if nobody waits |
| `Semaphore.NoOverflow` | maitake-sync/src/semaphore.rs:683-696 | in every run the counter after the final `fetch_add` of a release is at most what was supplied |
| `Semaphore.ServedInOrder` | maitake-sync/src/semaphore.rs:52-60 | in every run the waiters that were not cancelled are completed in the order in which they queued, those still queued last, and every completed waiter was woken or is in a batch about to be woken |
| `Semaphore.NoOvertaking` | maitake-sync/src/semaphore.rs:52-60 | if a later waiter was completed, every earlier one that was not cancelled was completed before it |
| `Semaphore.ReleaseProgress` | maitake-sync/src/semaphore.rs:649-704 | every access of a release in progress lowers a measure dominated by the permits left to hand out, whatever other threads do in between |
| `Semaphore.GiveOnePermit` | maitake-sync/src/semaphore.rs:655-679 | a waiter served by a release takes at least one permit from it |
| `Semaphore.TryAlone` | maitake-sync/src/semaphore.rs:742-774 | `try_acquire` run alone succeeds exactly if the counter has the permits, and then takes exactly those |
| `Semaphore.AcquireAlone` | maitake-sync/src/semaphore.rs:463-631 | a first poll run alone is Ready exactly if the counter has the permits; otherwise it takes what there is, queues last and needs the rest |
| `Semaphore.RepollGranted` | maitake-sync/src/semaphore.rs:481-599 | a re-poll run alone of a waiter that got all its permits is Ready and changes nothing else |
| `Semaphore.RepollWaits` | maitake-sync/src/semaphore.rs:481-630 | a re-poll run alone of a waiter that still lacks permits changes nothing |
| `Semaphore.FinishMeetsGoal` | maitake-sync/src/semaphore.rs:649-704 | from every point inside a release, finishing it alone leaves what the plain way of handing out its permits leaves |
| `Semaphore.ReleaseAlone` | maitake-sync/src/semaphore.rs:634-705 | for every capacity of a wake batch, a release run alone refines the plain way: oldest waiters completed first, the next one partly granted, the counter raised by what is left over |
| `RwLock.NothingSupplied` | maitake-sync/src/rwlock.rs:308-450 | the calls of a lock add and forget no permits |
| `RwLock.RunSized` | maitake-sync/src/rwlock.rs:308-370 | in every run each request is for one permit or for all of them |
| `RwLock.WriterExcludes` | maitake-sync/src/rwlock.rs:360-370 | in every run of the lock, while a write guard is live there is no other guard |
| `RwLock.DropNeverOverflows` | maitake-sync/src/rwlock.rs:228-245 | in every run of the lock a release never brings the counter above the maximum |
| `RwLock.NoBarging` | maitake-sync/src/rwlock.rs:308-318 | a reader or writer gets in without queueing only if nobody is queued |
| `WaitCell.KeepExclusive` | maitake-sync/src/wait_cell.rs:138-183 | every step of every poller, waker and closer keeps at most one thread in the waker slot |
| `WaitCell.StepKeeps` | maitake-sync/src/wait_cell.rs:134-206 | every step keeps the ledger: each parked waker is in the slot or in the hand of a thread about to wake it, one that is owed a wakeup and still in the slot has a thread bound to take it out, and a stored wakeup shows in the state word |
| `WaitCell.SlotExclusive` | maitake-sync/src/wait_cell.rs:502-516 | in every run two threads in the slot are the same thread |
| `WaitCell.ParkedIsKnown` | maitake-sync/src/wait_cell.rs:158-205 | in every run a waker whose poll returned Pending and that was not woken since is in the slot or in the hand of a thread about to wake it |
| `WaitCell.NoLostWakeup` | maitake-sync/src/wait_cell.rs:308-334 | in every run, once no call is in progress, every waker that was parked at some wake or close has been woken since |
| `WaitCell.WakeupStored` | maitake-sync/src/wait_cell.rs:498-525 | in every run, after a wake or close no poll returns Pending until a poll has taken the wakeup |
| `WaitCell.SubscribedWaitCompletes` | maitake-sync/src/wait_cell.rs:581-628 | in every run, a poll begun after a wakeup that nobody took ends Ready or Closed, never Busy: if it is the subscribing poll the wait is complete from the start, if it is the poll of the wait the wait completes |
| `WaitCell.WokenClearedByReady` | maitake-sync/src/wait_cell.rs:142-201 | the WOKEN bit is cleared only by a poll that goes on to return Ready or Closed |
| `WaitCell.StaysClosed` | maitake-sync/src/wait_cell.rs:326-334 | CLOSED is never cleared |
| `WaitCell.ClosedForEver` | maitake-sync/src/wait_cell.rs:138-141 | every poll whose first access comes after a close returns Closed |
| `WaitCell.PollAlone` | maitake-sync/src/wait_cell.rs:134-206 | a poll of a waiting cell run alone leaves its waker in the slot, wakes a different one that was there, and is Pending |
| `WaitCell.WakeAlone` | maitake-sync/src/wait_cell.rs:308-316 | a wake run alone of an open cell empties the slot, wakes its waker and stores the wakeup |
| `Paging.TableAddrWellFormed` | hal-x86_64/src/mm.rs:759-851 | each table address is canonical and 4K-aligned |
| `Paging.PtAddrIndices` | hal-x86_64/src/mm.rs:840-851 | the four indices of the page-table address are 511 and the first three of the page |
| `Paging.PdAddrIndices` | hal-x86_64/src/mm.rs:810-820 | likewise for the page directory |
| `Paging.PdptAddrIndices` | hal-x86_64/src/mm.rs:777-786 | likewise for the directory pointer table |
| `Paging.PathInjective` | hal-x86_64/src/mm.rs:719-721 | canonical page addresses with the same four indices are equal |
| `Paging.RecursiveWalk` | hal-x86_64/src/mm.rs:286-307 | for every page and level: if the direct walk has a table there, the hardware walk of `table_addr` through the recursive entry ends on that very frame |
| `PageMapping.AddRecursiveWorks` | hal-x86_64/src/mm.rs:62-71 | `init_paging` makes a usable recursive entry exactly when the free entry 511 had no stale huge bit, and changes no other translation |
| `Paging.NewEntryBits` | hal-x86_64/src/mm.rs:379-382 | the entry written for a new table is present, keeps its huge bit and holds the frame |
| `Paging.LeafEntryBits` | hal-x86_64/src/mm.rs:530-547 | the entry written for a page is present, keeps its huge bit and holds the frame |
| `Paging.TranslateAgrees` | hal-x86_64/src/mm.rs:218-270 | `translate_page` of a 4K page, reading every table through its recursive address, gives the answer of the hardware walk for every page not under a large page: the frame, WrongSize for a set PAT bit, NotMapped for a fault |
| `Paging.TranslateMisreads` | hal-x86_64/src/mm.rs:286-307 | under a 2M page it does not: it reads the first 4K of the data as a page table, because `next_table` ignores the huge bit |
| `Paging.TranslateMisreadsHuge` | hal-x86_64/src/mm.rs:286-307 | under a 1G page it reads a word of the first 4K of the data as a directory entry and, if that looks present, a word of another 4K of the data as the entry of the page |
| `Paging.TranslateDisagrees` | hal-x86_64/src/mm.rs:218-307 | a memory in which the hardware and `translate_page` give different frames for a page |
| `Paging.LinkKeepsTree` | hal-x86_64/src/mm.rs:342-388 | linking a fresh zeroed table keeps the tables a tree in which no table has two parents |
| `Paging.LinkKeepsWalk` | hal-x86_64/src/mm.rs:342-398 | linking a fresh zeroed table changes the translation of no page, including those under it |
| `PageMapping.NewTableReached` | hal-x86_64/src/mm.rs:379-387 | after the entry is written and before the table is cleared, whatever the frame holds, the recursive address already resolves to it |
| `PageMapping.CreatedEntry` | hal-x86_64/src/mm.rs:310-382 | afterwards the entry is present and writable and points at the table |
| `PageMapping.LeafWrite` | hal-x86_64/src/mm.rs:175-175 | the last write of `map_page` gives the page its frame and changes no other page |
| `PageMapping.GapMeans` | hal-x86_64/src/mm.rs:168-174 | the page is mapped exactly if its path is complete and its entry present |
| `PageMapping.GapStep` | hal-x86_64/src/mm.rs:342-388 | each `create_next_table` keeps the path as it is or closes exactly one missing table with one frame, and panics exactly on a stale huge bit or when frames run out |
| `PageMapping.OtherPagesKept` | hal-x86_64/src/mm.rs:147-178 | in terms of addresses: every other canonical page outside the recursive slot keeps its frame |
| `PageMapping.MapSmall` | hal-x86_64/src/mm.rs:147-178 | for every page under no large page: `map_page` keeps the tree and the recursive entry, maps exactly that page or panics for the reason that the path tells, and changes no other page |
| `PageMapping.MapLarge` | hal-x86_64/src/mm.rs:286-388 | under a 2M or 1G page `map_page` leaves every table alone but for writable bits |
| `PageMapping.MapUnder2Mb` | hal-x86_64/src/mm.rs:147-178 | under a 2M page exactly one word of the data becomes the entry, if it looks free; nothing else outside the tables changes |
| `PageMapping.MisledBy2Mb` | hal-x86_64/src/mm.rs:147-178 | the hardware then still finds the 2M page, no page changes its translation, and `translate_page` says the page was mapped |
| `PageMapping.MapUnder1Gb` | hal-x86_64/src/mm.rs:147-388 | under a 1G page the outcome and every word outside the tables are those of taking the first 4K of the data for the page directory and one other 4K of it for the page table; no page changes its translation |
| `PageMapping.DataLost` | hal-x86_64/src/mm.rs:375-387 | if the word of the data that is taken for the directory entry looks free, a whole 4K of the data is cleared, whatever it held, and one word of it becomes the entry of the page |
| `PageMapping.DataKept` | hal-x86_64/src/mm.rs:147-178 | data of the 1G page outside of these two 4K stay |
| `PageMapping.MapExact` | hal-x86_64/src/mm.rs:147-178 | a page that `map_page` says it mapped is mapped to that frame exactly if no large page covered it |
| `PageMapping.MapDisagrees` | hal-x86_64/src/mm.rs:147-178 | a memory in which `map_page` and `translate_page` say a page was mapped and the hardware finds another frame |
| `PageMapping.PageCtrl.InitPaging` | hal-x86_64/src/mm.rs:62-71 | refuses exactly if entry 511 is in use; otherwise adds the recursive entry, and the tables are usable exactly if that entry had no stale huge bit |
| `PageMapping.PageCtrl.Zero` | hal-x86_64/src/mm.rs:391-398 | the loop clears all 512 entries of the table and nothing else |
| `PageMapping.PageCtrl.NextTableMut` | hal-x86_64/src/mm.rs:310-340 | makes the entry writable if it is present and resolves the next table; nothing else changes |
| `PageMapping.PageCtrl.CreateNextTable` | hal-x86_64/src/mm.rs:342-388 | for every memory and page the memory and the answer that the source leaves; on the path of a page under no large page it changes no translation and returns the table the walk uses |
| `PageMapping.PageCtrl.MapPage` | hal-x86_64/src/mm.rs:147-178 | for every memory and page the memory and the answer that the source leaves. Under no large page: it succeeds exactly if the page is not mapped, no stale huge bit is in the way, the frames suffice and the address is valid, and otherwise says which panic; on success the hardware walk and `translate_page` give the frame and every other page translates as before, on a panic every page does. Under a large page: no page changes its translation |
| `List.Join` | cordyceps/src/list.rs:333-336 | two chains whose ends point at each other are one chain |
| `List.List.constructor` | cordyceps/src/list.rs:305-311 | a new list is empty |
| `List.List.PushBack` | cordyceps/src/list.rs:616-633 | the sequence gets the node at its end, with head, tail, length and both links of every node consistent |
| `List.List.PushFront` | cordyceps/src/list.rs:645-667 | the sequence gets the node at its front |
| `List.List.PopBack` | cordyceps/src/list.rs:548-572 | returns the last node, unlinked, and keeps the rest; nothing exactly if empty |
| `List.List.PopFront` | cordyceps/src/list.rs:588-604 | returns the first node, unlinked, and keeps the rest; nothing exactly if empty |
| `List.List.TakeAll` | cordyceps/src/list.rs:1027-1041 | hands out head, tail and length and leaves the list empty |
| `List.List.Append` | cordyceps/src/list.rs:319-346 | the sequence becomes the concatenation and the other list is empty |
| `List.List.CutAfter` | cordyceps/src/list.rs:995-1021 | cuts behind a node: the list keeps the front half with consistent ends, links and length, and the back half is a chain with the ends and the length returned |
| `List.List.SplitAfterNode` | cordyceps/src/list.rs:986-1022 | keeps the nodes up to the one given and returns the others as a list |
| `List.List.NodeAt` | cordyceps/src/list.rs:376-396 | whichever end the walk starts from, it ends on the node at that position |
| `List.List.TrySplitOff` | cordyceps/src/list.rs:362-398 | keeps s[..at] and returns s[at..], or nothing exactly if `at` is past the end |
| `List.List.InsertNodesBetween` | cordyceps/src/list.rs:933-983 | a chain of foreign nodes is spliced in at the position of its neighbours |
| `List.List.Unlink` | cordyceps/src/list.rs:799-829 | the node is cut out and its neighbours joined, at either end and in the middle |
| `List.List.Remove` | cordyceps/src/list.rs:793-831 | removes and returns a node of the list; a node that is in no list is refused and nothing changes |
| `List.List.RemoveStray` | cordyceps/src/list.rs:793-831 | a node of another list, which the caller must not pass: an inner node is returned, the other list is linked without it, its count is one too high and this count one too low (wrapping at zero); a node at an end is not returned, its links are cleared and the other list is broken unless it was its only node |
| `List.Iter.constructor` | cordyceps/src/list.rs:877-884 | an iterator starts with the whole list |
| `List.Iter.Next` | cordyceps/src/list.rs:1260-1275 | yields the first node not yet yielded, or nothing exactly if all were |
| `List.Iter.NextBack` | cordyceps/src/list.rs:1292-1307 | yields the last node not yet yielded, or nothing exactly if all were |
| `List.SplitThenAppend` | cordyceps/src/list.rs:319-398 | `append` undoes `try_split_off` at every position |
| `List.Mixed` | cordyceps/src/list.rs:1257-1308 | any mix of calls at the two ends yields each node exactly once, in order |
| `PowersOfTwo.NextPow2Least` | util/src/math.rs:97-99 | the next power of two is the least one not below its argument |
| `PowersOfTwo.PrevPow2Right` | alloc/src/buddy.rs:778-780 | `prev_power_of_two` is the largest power not above n exactly if n is 1 or neither n nor n-1 is a power of two; otherwise it is half of that |
| `Buddy.SplitPartitions` | hal-core/src/mem.rs:86-125 | both splits cut a region in two parts that share no address, and a merge undoes them |
| `Buddy.RoundedMeans` | alloc/src/buddy.rs:127-184 | the rounded size is the least block size that holds the layout and its alignment, and the order counts the doublings |
| `Buddy.TilesContiguous` | alloc/src/buddy.rs:212-266 | the blocks of a region are contiguous, strictly descending, and end where less than a smallest block is left |
| `Buddy.TileBits` | alloc/src/buddy.rs:227-238 | there is a block of size 2^k exactly if bit k of the region size is set, for every k from the smallest block up |
| `Buddy.TilesSized` | alloc/src/buddy.rs:370-372 | each block is a power of two of an order the lists have |
| `Buddy.TilesCover` | alloc/src/buddy.rs:212-266 | for bytes, for the coverage of any address and for every other additive measure, the blocks measure what the region does without its last bytes |
| `Buddy.CarveFails` | alloc/src/buddy.rs:227-232 | a region that is too small, too large or one byte above a multiple of the smallest block stays so under every cut that does not panic |
| `Buddy.CarvedExclusive` | alloc/src/buddy.rs:204-269 | adding a region that is in no block leaves no address in two blocks |
| `Buddy.Alloc.constructor` | alloc/src/buddy.rs:59-89 | the smallest block is the least power of two not below the request and the header; the heap is empty |
| `Buddy.Alloc.PushBlock` | alloc/src/buddy.rs:370-387 | a block goes to the front of the list of its order and adds to the heap size, or panics exactly if there is no such list |
| `Buddy.Alloc.AddBlock` | alloc/src/buddy.rs:212-266 | one turn of the loop: the block pushed, the rest left for the next turn and the base of the heap lowered, or a panic exactly if the block has no list or the region is empty; the accounts balance |
| `Buddy.Alloc.AddRegion` | alloc/src/buddy.rs:204-269 | a free region is added exactly if its size is at least a smallest block, not one byte above a multiple of it, and its top bit has a list; then the lists get exactly its blocks and the heap size grows by all but the remainder; the accounts balance even after a panic, blocks stay apart if the region was in no block, and on the grid of the base if the region starts there |
| `Buddy.Alloc.SplitDown` | alloc/src/buddy.rs:464-484 | the loop leaves the front of the block and one remainder on each order passed |
| `Buddy.SplitTotal` | alloc/src/buddy.rs:464-484 | block and remainders together measure what the block did: the same bytes, each address once |
| `Buddy.TakenTotal` | alloc/src/buddy.rs:281-311 | an allocation takes exactly the block handed out from the free blocks, for every additive measure |
| `Buddy.Alloc.Take` | alloc/src/buddy.rs:281-311 | the block popped, split down and counted; the accounts balance and no address is in two blocks |
| `Buddy.Alloc.AllocInner` | alloc/src/buddy.rs:271-314 | returns nothing exactly if the rounded size exceeds the heap or no list of its order or above has a block, panics exactly if the heap is that large but the lists do not reach the order; otherwise the block has exactly the rounded size and comes from the first list that has one; the accounts balance, and blocks stay apart and on the grid |
| `Buddy.Overrun` | alloc/src/buddy.rs:271-278 | a one-list allocator with a header of 48 bytes and four smallest blocks of 64 panics on a request for all its bytes |
| `Buddy.CoalesceTotal` | alloc/src/buddy.rs:336-364 | merging adds up under every measure that each merge respects |
| `Buddy.BytesMerge` | alloc/src/buddy.rs:336-346 | bytes add up whichever block is taken for the buddy |
| `Buddy.AdjacentMerge` | alloc/src/buddy.rs:336-346 | merging neighbours keeps the coverage of every address |
| `Buddy.RunsPast` | alloc/src/buddy.rs:335-367 | whatever block is taken for the buddy, merging can run past the last list only if every list from the order of the block up has a block |
| `Buddy.Alloc.Release` | alloc/src/buddy.rs:335-365 | the merging loop ends with the merged block on a list, at a free header of another order, or behind the last list, with exactly the lists that follow |
| `Buddy.Alloc.FreeBlock` | alloc/src/buddy.rs:335-365 | with its accounts: they balance for an allocated block that ends on a list, and nothing is counted otherwise |
| `Buddy.FreedKeeps` | alloc/src/buddy.rs:316-367 | freeing an allocated block keeps allocated + free = heap size, whatever blocks are taken for buddies |
| `Buddy.FreedExclusive` | alloc/src/buddy.rs:336-357 | and leaves no address in two blocks if the blocks merged are neighbours |
| `Buddy.BuddyNear` | alloc/src/buddy.rs:394-420 | the header that `take_buddy` reads is at distance 2^order from the block, on whichever list |
| `Buddy.ListBySize` | alloc/src/buddy.rs:452-452 | a free block has the size that is asserted exactly if it is on the list of that order |
| `Buddy.NearBlocks` | alloc/src/buddy.rs:417-420 | in a heap whose blocks are apart no free block of any order starts 2^order above an allocated block, and one that starts 2^order below it is of an order smaller by at least the exponent of the smallest block |
| `Buddy.HeaderMet` | alloc/src/buddy.rs:394-460 | for an allocated block of a heap whose blocks are apart, `take_buddy` meets a free header exactly if bit order of the offset of the block from the base is set and a free block, of whichever order, starts 2^order below; it is then never of the order of the block |
| `Buddy.NothingMerged` | alloc/src/buddy.rs:316-460 | so freeing an allocated block never merges: it goes to the front of the list of its order, with no address in two blocks, exactly if no such header is met, and fails the assertion on the size of the buddy otherwise |
| `Buddy.LiveFitsHeap` | alloc/src/buddy.rs:318-321 | an allocated block is no larger than the heap, so its layout is never refused |
| `Buddy.Alloc.DeallocWith` | alloc/src/buddy.rs:316-367 | with any way to find a header: out of memory exactly if the layout exceeds the heap, freed exactly if merging ends on a list, `WrongBuddy` exactly if it meets a header of another list, else the unreachable panic; an allocated block is never refused and the accounts balance |
| `Buddy.Alloc.DeallocInner` | alloc/src/buddy.rs:316-460 | with the address that the source computes: in a heap whose blocks are apart an allocated block is freed, unmerged and with the blocks still apart, exactly if its offset bit is clear or no free block starts 2^order below; otherwise the result is `WrongBuddy` and nothing changes; blocks of an order below the exponent of the smallest block and blocks on the grid are always freed |
| `Buddy.SmallNeverMeets` | alloc/src/buddy.rs:418-420 | a block smaller than the square of the smallest block meets no header |
| `Buddy.GridFrees` | alloc/src/buddy.rs:418-420 | if every block lies at a multiple of its size from the base, none meets a header, and freeing keeps the blocks there |
| `Buddy.CarvedGrid` | alloc/src/buddy.rs:204-269 | carving a region that starts on the grid gives blocks on the grid |
| `Buddy.TakenGrid` | alloc/src/buddy.rs:464-484 | splitting keeps blocks on the grid |
| `Buddy.OneRegion` | alloc/src/buddy.rs:204-460 | for every sequence of requests and returns on a heap made of one region: every block held that is given back is freed, and blocks stay apart and on the grid |
| `Buddy.Unfreeable` | alloc/src/buddy.rs:441-455 | built by calls: with three regions of 64 bytes and one of 4096 behind the middle one, the 4096 bytes are allocated and cannot be freed, in a heap whose blocks are apart |
| `Buddy.FreeAfterAlloc` | alloc/src/buddy.rs:271-460 | a block that was just allocated is freed exactly if no free block was at the address that `take_buddy` reads before; then the free lists are as before, but for the place of the block in its list, if nothing was split, and the larger block is gone for good if something was |
| `TransferStack.KeepPushed` | cordyceps/src/stack.rs:152-157 | a successful exchange extends the shared stack by its node, even if the compared head was taken and pushed again in between |
| `TransferStack.StepKeeps` | cordyceps/src/stack.rs:138-266 | every step of any number of pushers and takers keeps the invariant: each stack is a chain of distinct nodes with one owner |
| `TransferStack.StacksAreRight` | cordyceps/src/stack.rs:170-266 | in every run the links of the shared stack and of every taken stack spell out the sequence that the successful exchanges, takes, pushes and pops so far give it, and the next pop returns its top, nothing exactly if it is empty |
| `TransferStack.PushesInOrder` | cordyceps/src/stack.rs:138-174 | in every run the sequences that the links spell at each `take_all`, each from its oldest node, followed by what they still spell from the head, are the pushes in the order of their successful exchanges |
| `TransferStack.OnePlace` | cordyceps/src/stack.rs:138-174 | in every run each handle is in exactly one place: with a caller, with one pusher, on the shared stack, or on one taken stack |
| `TransferStack.HandlesUnlinked` | cordyceps/src/stack.rs:138-142 | a node that is pushed has a null link, as both pushes assert |
| `TransferStack.PushAlone` | cordyceps/src/stack.rs:138-162 | a push run alone puts its node on top of what was there |
| `Bitfield.DecValue` | bitfield/src/pack.rs:285-285 | the borrow of `saturating_sub(1)` is a subtraction |
| `Bitfield.MkMaskRange` | bitfield/src/pack.rs:279-286 | the mask of n bits is the first n bits, for every width |
| `Bitfield.NextField` | bitfield/src/pack.rs:367-371 | the next field starts where a field ends, and at bit 0 if that field is empty; for a field that does not end at the top bit, behind which the source overflows |
| `Bitfield.RemainingField` | bitfield/src/pack.rs:375-380 | the remaining field is everything after a field that does not end at the top bit, behind which the source overflows |
| `Bitfield.LayoutContiguous` | bitfield/src/pack.rs:207-213 | for any word width and any widths that fit, the specs built one after the other are contiguous exactly if no field between two others is empty |
| `Bitfield.LayoutDisjoint` | bitfield/src/pack.rs:367-371 | fields of a contiguous layout do not overlap |
| `Bitfield.BitsOfField` | bitfield/src/pack.rs:307-315 | number of bits and maximum value of a field |
| `Bitfield.PackBit` | bitfield/src/pack.rs:335-340 | bit by bit: the field holds the low bits of the value, every other bit the base |
| `Bitfield.UnpackBit` | bitfield/src/pack.rs:439-441 | bit by bit: unpacking gives the bits of the field |
| `Bitfield.ReadBack` | bitfield/src/pack.rs:335-340 | what is packed is read back, truncated to the field |
| `Bitfield.Preserves` | bitfield/src/pack.rs:335-340 | packing one field leaves every separate field alone |
| `Bitfield.Commutes` | bitfield/src/pack.rs:335-340 | the order in which separate fields are packed does not matter |
| `Bitfield.LayoutPacks` | bitfield/src/pack.rs:207-380 | for any word width and any widths that fit with no empty field between others: packing a field of the layout is read back, leaves every other field alone and commutes with packing another |
| `Bitfield.Cell.PackIntoTruncating` | bitfield/src/pack.rs:349-354 | the mutating form leaves what the pure form returns |
| `Bitfield.FromSrcBit` | bitfield/src/pack.rs:943-950 | a pair moves the field from its `dst` place to its `src` place and keeps every other bit |
| `Bitfield.FromDstBit` | bitfield/src/pack.rs:954-961 | and from its `src` place to its `dst` place |
| `Bitfield.PairThereAndBack` | bitfield/src/pack.rs:921-961 | a field moved there and back is where it was |
| `Bitfield.PairBackAndThere` | bitfield/src/pack.rs:921-961 | in the other direction too |
| `Bitfield.AssertAllValid` | bitfield/src/pack.rs:485-509 | passes exactly if every spec is valid and no two with different names overlap |
| `Bitfield.FieldValid` | bitfield/src/pack.rs:528-566 | every field with a bit in it passes `assert_valid` |
| `Segment.SourceSpecsPlaced` | hal-x86_64/src/segment.rs:47-102 | the specs of the source, built by `least_significant` and `next`, are where the manual has the fields |
| `Segment.TssLowBits` | hal-x86_64/src/segment.rs:539-548 | the lower half of a TSS descriptor, bit by bit, as the manual draws it |
| `Segment.TssHighBits` | hal-x86_64/src/segment.rs:550-553 | the upper half likewise |
| `Segment.TssRoundTrip` | hal-x86_64/src/segment.rs:532-571 | `base` recovers every 64-bit address from `tss`, and `limit` the low 20 bits of the limit |
| `Segment.LimitSurvives` | hal-x86_64/src/segment.rs:566-571 | the whole limit is recovered exactly if it is below 2 to the 20 |
| `Segment.SourceRoundTrip` | hal-x86_64/src/segment.rs:441-571 | the round trip with the specs that the source builds |

## Left out

- Weak memory: every atomic access is sequentially consistent, so acquire/release orderings and `loom` are not modelled.
- Pinning, unwinding, aliasing rules and the drop of user values: handles are names of nodes.
- `Semaphore::close`: semaphore runs are without `close`; a multi-batch release racing it does not re-check it.
- Polling a future after it completed, which the contract of futures forbids.
- The atomicity of `RemainingPermits::add`: its loop is one step, because it runs only under the queue lock.
- Spurious failure of `compare_exchange_weak` in the semaphore: a failed exchange there re-reads the counter, and one that fails although the values agree would repeat the same step.
- `WaitCell::is_closed`, which compares with CLOSED alone, and the `debug_assert` at wait_cell.rs:186, which several simultaneous pollers can trip.
- Retry loops and backoff of `lock_consumer`: each attempt is a step; that it succeeds in the end is not claimed.
- PageMapping.PageCtrl.MapPage: what it does to translations is stated for pages outside the recursive slot and for tables without a PML4 entry whose reserved bit 7 is set; under no large page with frames that are free, distinct and below 2^52, under a large page whose data hold no tables. It rests on the tables being a tree (`Tree`): no table is shared by two entries, as it would be if a caller mapped one table twice.
- Paging.TranslateAgrees: for 4K pages; the variants for 2M and 1G pages are not modelled, nor are the TLB (taken to be coherent) and access rights.
- `flags_mut`, `unmap` and `translate_addr` are unimplemented in the source.
- Buddy.Alloc.DeallocInner: a free header is one of a block on a list, so what data of a caller that look like a header would do is not modelled, nor what a build without debug assertions does to the lists after the assertion that `WrongBuddy` stands for, beyond `List.List.RemoveStray`. Blocks that overlap, or are freed with another layout, are outside the safety contract.
- Buddy.Alloc.AddRegion: follows the source for an unaligned base too, which moves the base up and keeps the size, so the blocks then end behind the region.
- The interleaving of the buddy allocator's list locks and counters: each call is one unit. The virtual-memory offset is not modelled.
- 64-bit overflow of sizes and sums in the buddy allocator and the list length.
- `List` cursors, `drain_filter`, `IterMut` (same code as `Iter`) and the list's own `assert_valid`.
- List.List.Remove: for nodes of this list and unlinked nodes; a node of another list is the matter of `List.List.RemoveStray`.
- `Pack::from_mask`, `from_range`, the full-width `max_value` (it overflows) and the generated accessors of the `bitfield!` macro.
- `Gdt`, `Selector` and the descriptors other than the TSS.
- `RwSpinlock`, `Mutex`, `WaitQueue`, `WaitMap`, the scheduler, the timer wheel, the bump allocator and address helpers.
- Hardware and tooling: control registers, interrupts, serial, framebuffer, the shell, the build.
