# A verified model of DC, its reactive memory allocator and the LL structures

DC is a dataflow constraint solver: constraints are pieces of code that are run again whenever a reactive
memory cell they have read changes. This project models the solver, the allocator of reactive memory, and the
structures under them, and proves what they promise. `dafny verify dfyconfig.toml` checks everything.

## The solver (dc2)

`DcState` is the solver as a state machine: one function for each thing user code, a constraint body or the
dispatch loop may do next, on a state that holds every global variable. A run is any sequence of these steps, so a
body may read, write, create and delete constraints, create groups, and open and close blocks. Fields marked
*history* are never read by a step; the theorems speak about them. `Solver` is the solver as the program has it,
global variables updated in place by handlers with scan, flush and dispatch loops, and every method is proved to
take exactly the step of the state machine. Its invariant says that the variables hold a reachable state, so each
theorem about runs is a theorem about the methods; `Call` is a whole call of the program, with the dispatch loop it
starts and the bodies that run in it, which may do anything a body may. `DepLists` is the dependency lists as the
program has them, links from node to node and a free list threaded through the same links: the clean-up loop unlinks
and frees nodes, scheduling splices a list into the free list, and the chains are proved to spell out the lists of
`DcState`, which never share a node. `SchedHeap` is the array of the top-level scheduler.

The invariant (`DcInv`) and its preservation (`DcLog`, `DcSched`, `DcFlush`, `DcSteps`, `DcTurn`) carry the
theorems:

* `DcTheorems`: no dependency is ever lost; the end of a body, the end of an atomic section and a store outside any
  section queue a constraint exactly if a cell it logged has changed; nodes are in one list each; a stale node stays
  stale through the reuse of its constraint.
* `DcPicks`: constraints and groups wait at top level under the stamps of their last executions, and of two that wait
  the older one is taken first, in every run.
* `DcEffects`: what each step does to every variable it is about, in plain fields.
* `DcFixpoint`: deterministic constraints that do not change what they logged, and whose outputs no one else
  overwrites, reach a common fixpoint whenever the solver returns.
* `DcAmortised`: the nodes visited by clean-up are at most twice those allocated.
* `DcStale`: the comment that clean-up keeps the stale nodes to at most half of a list (dc2/src/dc_solver.c:135-140)
  is false of the code: `AllStale` gives, for every length, a run after which a list of that length is all stale. What
  holds is proved instead. A clean-up leaves no stale successor (`CleanupLeavesFresh`). A node goes stale exactly when
  its constraint is queued or deleted, and until then it stays in its list, through every clean-up (`StaleExactly`). So
  after a clean-up at most half of the list, rounded up, is stale as long as the constraints of the nodes that survived
  it are left alone, and each of these that is queued or deleted adds one (`HalfStale`); and a list that was all up to
  date is at most half stale if and only if at most half of its constraints have been (`HalfStaleExactly`).
* `DcLifecycle`: each constraint object is free, at rest, or queued once; deferred deletion frees once and runs never;
  the counter of a group is the number of its live constraints.
* `DcOrder`: new constraints run in preorder of their creation tree.
* `DcStuck`: the dispatch loop takes it for granted that a group it picks has a constraint to run
  (dc2/src/dc_solver.c:788-803). That is false of the code. `StuckRun` is a run in which it finds none;
  `EmptyGroupExactly` says exactly which bodies leave such a group behind: those that change a cell they logged while
  they are exempt from triggering themselves, belong to a group that is neither current nor queued, and wake no one
  else in it. Runs without such a body never get there (`NeverStuck`). A group left empty stays queued and empty until
  one of its members is woken (`EmptyLasts`), and a run gets stuck if and only if it picks one before that
  (`StuckExactly`).

## The allocator (rm)

`RmHeap` is the heap as a value, blocks with the flags of their headers and lists of free blocks, with one function
for each step of the code, in the order of the code. `RmInv`, `RmSplit`, `RmLive` and `RmRuns` prove the invariant,
the effect of malloc, free and realloc on the blocks in use, and well-formedness over every run; `RmTheorems` and
`RmRuns` prove that the segregated search is global best fit. `RmExact` says over blocks and numbers alone when a
request fails, where its block comes from, how large it is and how far the heap grows. `RmRaw` says how raw memory holds such a heap, and
`RmAlloc` is the program over one array: headers with stolen bits, end pointers, lists threaded through free blocks.
Each method takes memory from one heap to the heap of its function and leaves every byte in use alone; realloc moves
the bytes along. Addresses are offsets from the start of the heap, and the cell of the array at an offset stands for
the word, or the client's byte, that starts there; a block in use is left alone in the sense that no word is changed
one of whose four bytes is in it. The comment on realloc promises that a null pointer is treated as in malloc
(rm/src/rm_alloc.c:1145-1151); the code returns null, and so does `Realloc`.

## Supporting structures

* `QuickFind` (ll-core/src/LQuickFindStatic.c): representatives are equal exactly for items related by the equivalence
  closure of the unions, which is computed from the operations; an item moves at most log2(n) times.
* `IndexedHeap` (ll-core/src/LHeap.c): refines a map from handles to items and keys, for any strict weak order. A handle
  that is not live is refused, except for one: extracting the only entry overwrites the mark of its handle
  (ll-core/src/LHeap.c:287-288). `ExtractMin`, `Update`, `GetEntryAt` and `RemoveExtracted` say what happens to it.
* `HashTable` (ll-core/src/LHash.c): refines a finite map through every expansion and shrink. Inserting a key that is
  already there uses an index computed before its removal, which may shrink the table (ll-core/src/LHash.c:158-163):
  `InsertExactly` says when insertion still works, and `HashStale.StaleRun` is a run from the empty table, 98
  insertions and 85 deletions, after which inserting a present key uses an index outside the table.
* `HashStatic` (ll-core/src/LHashStatic.c): insertion of a key fails on full tables only, in every run, if and only if its
  probes are all different (`KeyExactly`). For the sizes the constructor chooses from, that holds for all keys if and
  only if the probes do not wrap around in 32 bits (`SizesExactly`), that is up to 49157; for each of the 15 larger
  sizes `SizeFails` gives a run of insertions after which a key is refused although the table has room. `Primes`
  proves by trial division that the smaller sizes are prime.
* `Pool` and `PoolIterator` (dc2/src/pool.c): carving keeps blocks apart; the iterator gives each block in use once.
* `Graph` and `GraphObject` (ll-core/src/LGraph.c, ll-core/src/LEdgeInfo.c): three intrusive lists, swap-with-last indices
  and the side arrays that follow them.
* `Counting`: facts about sequences of different numbers.

## Model

| member | source | states |
|---|---|---|
| `Solver.Globals.Call` | dc2/src/dc_solver.c:208-395 | a whole call from outside any body: one operation and, exactly if it starts the solver, the dispatch loop to its end; if it returns with no block open, every live constraint is unscheduled and what it read is as it was when it last finished |
| `Solver.Globals.Load` | dc2/src/dc_solver.c:41-202 | a load gives what memory holds, and its cell joins the log of reads if and only if logging is on, so not within a no-log block, and the cell was not touched before |
| `DepLists.Links.LogDep` | dc2/src/dc_solver.c:98-194 | the stale first node is overwritten, or a node is added; afterwards the links spell out the new lists and the free list |
| `DepLists.Links.AddNode` | dc2/src/dc_solver.c:110-185 | a node from the pool is linked in front; the countdown is decremented, or at zero the stale successors are freed and the others counted |
| `DepLists.Links.CleanUp` | dc2/src/dc_solver.c:143-184 | the loop over the links keeps exactly the up-to-date successors, counts them, pushes the stale ones on the free list, and relinks no other node |
| `DepLists.ChainBypass` | dc2/src/dc_solver.c:158-170 | unlinking the successor of a node leaves a chain through the others |
| `DepLists.ChainSplice` | dc2/src/dc_solver.c:538-548 | linking the last node to the free list and cutting after the first splits the list in these two, for a list of one node too |
| `DepLists.Links.KeepFirst` | dc2/src/dc_solver.c:538-548 | only the first node stays in the list, the others are at the front of the free list in their order, and no other list changes |
| `Solver.Globals.Store` | dc2/src/dc_solver.c:208-324 | a store up to the dispatch loop: logged within an atomic section, and otherwise compared with the last known value and acted on |
| `Solver.Globals.Trigger` | dc2/src/dc_solver.c:467-531 | an up-to-date node queues its constraint unless it is queued or the exempt current one, and queues its group in any case; at top level under the stamp it had |
| `Solver.Globals.ScanList` | dc2/src/dc_solver.c:463-536 | the scan loop follows the links and triggers the up-to-date nodes in list order |
| `Solver.Globals.Schedule` | dc2/src/dc_solver.c:447-552 | after the scan only the first node is kept |
| `Solver.Globals.CheckCell` | dc2/src/dc_solver.c:930-940 | a cell is compared with its last known value, which is updated before its dependents are scheduled |
| `Solver.Globals.FlushWritten` | dc2/src/dc_solver.c:915-941 | every written cell is unmarked and checked, in the order of the log |
| `Solver.Globals.FinalizeAtomic` | dc2/src/dc_solver.c:887-945 | the end of a section: new constraints go in front, flags are cleared, written cells are checked |
| `Solver.Globals.ExecCons` | dc2/src/dc_solver.c:608-660 | a deleted constraint is freed; any other is stamped and entered, or time stamps have run out |
| `Solver.Globals.LeaveCons` | dc2/src/dc_solver.c:662-679 | the end of a body is the matching step of the state machine |
| `Solver.Globals.TakeMember` | dc2/src/dc_solver.c:721-737 | a constraint the group's scheduler picks is executed |
| `Solver.Globals.DispatchTop` | dc2/src/dc_solver.c:769-820 | the top-level pick is a minimum, and its constraint or a member of its group is executed |
| `Solver.Globals.DispatchOne` | dc2/src/dc_solver.c:687-838 | one turn of the loop is one turn of the state machine |
| `Solver.Globals.Dispatch` | dc2/src/dc_solver.c:687-838 | whatever the bodies do, if the loop returns, every live constraint is unscheduled and what it read is as it was when it last finished |
| `Solver.Globals.NewCons` | dc2/src/dc_objects.c:136-240 | a new constraint goes to the end of the temporary list, or outside any section is entered at once with its group current; its group's counter goes up |
| `Solver.Globals.DelCons` | dc2/src/dc_objects.c:246-278 | an unscheduled constraint is freed, a queued one only marked; its group's counter goes down |
| `Solver.Globals.IsEmptyGroup` | dc2/src/dc_objects.c:60-68 | a group may be deleted if and only if it has no live constraint |
| `Solver.Globals.BeginAt` | dc2/src/dc_solver.c:330-347 | opens a block; fails exactly within bodies and if too many are open |
| `Solver.Globals.EndAt` | dc2/src/dc_solver.c:353-395 | an inner block only counts down; the outermost one ends the section with new constraints in front and goes on to the dispatch loop; fails exactly within bodies and if none is open |
| `Solver.Globals.BeginNoLog` | dc2/src/dc_solver.c:401-418 | opens a no-log block; fails exactly outside bodies and if too many are open |
| `Solver.Globals.EndNoLog` | dc2/src/dc_solver.c:424-441 | closes a no-log block; fails exactly outside bodies and if none is open |
| `DcTheorems.NoLostDependency` | dc2/src/dc_solver.c:41-202 | in every run, when the solver has returned, each live constraint is unscheduled and every cell its last execution logged holds the value it had when that execution finished |
| `DcTheorems.LeaveRemembers` | dc2/src/dc_solver.c:608-681 | after a body its constraint depends on exactly the cells it logged, and remembers their final values |
| `DcTheorems.LeaveQueuesExactly` | dc2/src/dc_solver.c:447-552 | the end of a body queues another resting constraint if and only if a cell that one logged no longer holds the value its execution left; it then waits in exactly its group or at top level under exactly the stamp it had |
| `DcTheorems.LeaveQueuesItself` | dc2/src/dc_solver.c:474-512 | the end of a body queues its own constraint if and only if self-triggering is on and it changed a cell it had logged; it then waits under its own stamp |
| `DcTheorems.EndAtQueuesExactly` | dc2/src/dc_solver.c:353-395 | so does the end of an atomic section, for every resting constraint, with the stamps they had |
| `DcTheorems.StoreQueuesExactly` | dc2/src/dc_solver.c:281-318 | a store outside any section queues a resting constraint, under the stamp it had, if and only if it logged the cell with another value, and starts the solver if and only if the value changes |
| `DcPicks.LeaveQueuesGroup` | dc2/src/dc_solver.c:496-531 | the end of a body queues a group that is neither current nor queued if and only if it has a member to wake, the exempt running one included, and then under exactly the stamp the group had |
| `DcPicks.EndAtQueuesGroup` | dc2/src/dc_solver.c:496-531 | so does the end of an atomic section |
| `DcPicks.StoreQueuesGroup` | dc2/src/dc_solver.c:496-531 | so does a store outside any section |
| `DcPicks.OldestFirst` | dc2/src/dc_sched_heap.c:78-162 | over any run, of two entries that wait at top level the one with the smaller stamp is taken out first |
| `DcPicks.OldestRunsFirst` | dc2/src/dc_solver.c:484-488 | of two constraints without groups that the end of a body has queued, the one executed longest ago is taken first |
| `DcEffects.ReadDoes` | dc2/src/dc_solver.c:41-202 | a load is logged if and only if logging is on and the cell is untouched; then the log, the flag and the first node change, and otherwise nothing |
| `DcEffects.LoggedStoreDoes` | dc2/src/dc_solver.c:245-278 | a store within a section changes memory and logs the cell once; nothing is compared, scheduled or entered |
| `DcEffects.PlainStoreDoes` | dc2/src/dc_solver.c:281-323 | a store outside any section starts the solver exactly if the value changes, and leaves memory and last known value equal |
| `DcEffects.NewDoes` | dc2/src/dc_objects.c:136-240 | the first free object is used; within a section it waits behind those created before, otherwise it is stamped, entered, and its group and flag become current |
| `DcEffects.DelDoes` | dc2/src/dc_objects.c:246-278 | the deletion stamp is set, and an unscheduled object goes to the front of the free list |
| `DcEffects.InnerEndAtDoes` | dc2/src/dc_solver.c:353-367 | closing an inner block counts down and does nothing else |
| `DcEffects.OuterEndAtDoes` | dc2/src/dc_solver.c:367-395 | closing the outermost block puts the new constraints in front in creation order, clears logs and flags, and goes on to the dispatch loop |
| `DcEffects.LeaveDoes` | dc2/src/dc_solver.c:667-679 | so does the end of a body, which stops logging |
| `DcEffects.TurnNewDoes` | dc2/src/dc_solver.c:695-715 | a turn executes the first new constraint if there is one, in the group that is current |
| `DcEffects.TurnMemberDoes` | dc2/src/dc_solver.c:719-735 | otherwise one queued member of the current group, which leaves the group's scheduler |
| `DcEffects.TurnTopDoes` | dc2/src/dc_solver.c:737-820 | otherwise a least entry at top level: the group that is left gets the time of the latest execution as its stamp, and none is current |
| `DcEffects.TurnGroupDoes` | dc2/src/dc_solver.c:788-820 | if that entry is a group, it becomes current, self-triggering is its own flag, and one of its members is executed |
| `DcEffects.TurnDoneDoes` | dc2/src/dc_solver.c:737-838 | with nothing left the solver is done: no group is current, nothing triggers itself, no block is open |
| `DcTheorems.NodesAlwaysInOrder` | dc2/src/dc_solver.c:98-194 | every node is in exactly one cell list or the free list, once; a list has at most one up-to-date node per constraint, and the running constraint's is first |
| `DcTheorems.StaleForever` | dc2/include/dc_defs.h:196-200 | a stale record never becomes up to date again, through freeing and reuse of its constraint object |
| `DcTurn.RunInv` | dc2/src/dc_solver.c:687-838 | every run keeps the invariant |
| `DcAmortised.AmortisedCleanup` | dc2/src/dc_solver.c:110-185 | in every run a cell's clean-ups visit at most twice the nodes allocated for it, and length plus countdown is at most twice the last countdown set, plus one |
| `DcAmortised.ReadCounts` | dc2/src/dc_solver.c:98-185 | what allocations and visits count: a read allocates unless it reuses a stale first node, and a clean-up visits all older nodes |
| `DcStale.AllStale` | dc2/src/dc_solver.c:135-140 | for every length, a run after which the solver has returned and a list of that length is all stale |
| `DcStale.CleanupLeavesFresh` | dc2/src/dc_solver.c:143-184 | after a clean-up all nodes behind the first are up to date, and the countdown set is their number |
| `DcStale.StaleExactly` | dc2/include/dc_defs.h:196-200 | over any run an up-to-date node stays in its list, up to date, if and only if its constraint is neither queued nor deleted; otherwise its record is stale |
| `DcStale.HalfStale` | dc2/src/dc_solver.c:135-140 | after a clean-up at most half of the list, rounded up, is stale, but for the survivors whose constraints have been queued or deleted, all of which are |
| `DcStale.HalfStaleExactly` | dc2/src/dc_solver.c:135-140 | a list that was all up to date is at most half stale if and only if at most half of its constraints have been queued or deleted |
| `DcLifecycle.QueuedExactlyOnce` | dc2/src/dc_objects.c:136-279 | a constraint object is in none of the free list, the new lists, the group schedulers and the top level if unscheduled, and otherwise in exactly one of them, once |
| `DcLifecycle.DeletedWhileQueued` | dc2/src/dc_solver.c:608-618 | over any run a constraint deleted while queued is never entered and not in the free list, up to the turn that takes it, which pushes it on the free list once and runs nothing |
| `DcLifecycle.StepCounts` | dc2/src/dc_objects.c:60-68 | every step but creating and deleting leaves each group's number of live constraints alone |
| `DcLifecycle.GroupRunsAlone` | dc2/src/dc_solver.c:719-737 | while a group is current the next constraint is the first new one or a member of the group |
| `DcOrder.NewInPreorder` | dc2/src/dc_solver.c:893-906 | pending new constraints and those they create are taken in preorder of the creation forest, and the others keep their turn |
| `DcOrder.StaysKeepsQueued` | dc2/src/dc_solver.c:695-715 | meanwhile nothing that was scheduled before is run or moved |
| `DcStuck.EmptyGroupExactly` | dc2/src/dc_solver.c:498-531 | the end of a body leaves a group queued with nothing to run if and only if the body changed a cell it logged, is exempt, and is alone in waking its group, which is neither current nor queued |
| `DcStuck.StuckRun` | dc2/src/dc_solver.c:788-803 | a concrete run after which the picked group has no constraint to execute |
| `DcStuck.NeverStuck` | dc2/src/dc_solver.c:788-803 | runs without such a body always find one |
| `DcStuck.EmptyLasts` | dc2/src/dc_solver.c:498-531 | over any run a group left empty stays queued and empty until one of its members is woken, unless it is picked |
| `DcStuck.StuckExactly` | dc2/src/dc_solver.c:788-803 | a run gets stuck if and only if it picks a group left empty |
| `DcFixpoint.CommonFixpoint` | dc2/include/dc.h:215-219 | when the solver has returned, running any live constraint again repeats its last accesses and leaves memory as it is, for disciplined deterministic bodies |
| `SchedHeap.Heap.Schedule` | dc2/src/dc_sched_heap.c:78-112 | adds one entry with the stamp captured at scheduling time, growing the array if need be |
| `SchedHeap.Heap.Pick` | dc2/src/dc_sched_heap.c:118-162 | removes an entry of minimum stamp, or gives nothing if there is none; all accesses stay in bounds |
| `SchedHeap.RootIsLeast` | dc2/src/dc_sched_heap.c:118-130 | the first entry of a heap-ordered array is least |
| `RmAlloc.GetIndex` | rm/src/rm_alloc.c:392-426 | the loop over exponents computes the list index of the rounded size |
| `RmHeap.IndexOrdered` | rm/src/rm_alloc.c:392-426 | a larger size is never in an earlier list, and small lists hold one size |
| `RmAlloc.Allocator.OutList` | rm/src/rm_alloc.c:431-485 | unlinks a block from its list and touches nothing else |
| `RmAlloc.Allocator.InList` | rm/src/rm_alloc.c:491-583 | links a block at the front of its list, or, if large, before the first one not smaller |
| `RmAlloc.Allocator.CoalesceForward` | rm/src/rm_alloc.c:617-651 | takes a free next block in, with its header, end pointer and announcements, and keeps `last_block` |
| `RmAlloc.Allocator.CoalesceBackward` | rm/src/rm_alloc.c:655-689 | finds a free previous block through its end pointer and becomes part of it |
| `RmAlloc.Allocator.MarkAsFree` | rm/src/rm_alloc.c:339-349 | sets the free bit, the end pointer and the flag of the next block |
| `RmAlloc.Allocator.MarkAsUsed` | rm/src/rm_alloc.c:350-361 | clears the free bit and the flag of the next block |
| `RmAlloc.Allocator.Split` | rm/src/rm_alloc.c:718-783 | cuts off a large enough rest on alternating sides, frees it, joins it in the coalescing mode |
| `RmAlloc.Allocator.Obtain` | rm/src/rm_alloc.c:931-1069 | takes a smallest free block that fits, or, if none fits, grows the heap by whole pages; gives null if and only if none fits and the heap would pass its limit |
| `RmAlloc.Allocator.Malloc` | rm/src/rm_alloc.c:931-1108 | null is returned if and only if every free block is smaller than the rounded size and the end of the heap plus the pages for it would pass the limit; otherwise one aligned block, at most 16 bytes larger than the rounded size, is added to those in use, and no word that overlaps one of them changes |
| `RmAlloc.Allocator.Free` | rm/src/rm_alloc.c:1116-1143 | the block is joined with free neighbours and listed, and exactly it goes out of use; no word that overlaps another block in use changes; a null pointer changes nothing |
| `RmAlloc.Allocator.Realloc` | rm/src/rm_alloc.c:1153-1278 | in place, with the next block, at the end of the heap, or moved, each exactly when `ResizeDoes` says; the old contents are at the result, a failure keeps the block, and a null pointer gives null |
| `RmAlloc.Allocator.Write` | rm/src/rm_alloc.c:297-361 | whatever clients write into their blocks, the heap stays represented |
| `RmAlloc.Allocator.constructor` | rm/src/rm_alloc.c:791-910 | empty list heads and one free block, nothing in use |
| `RmSplit.SplitIs` | rm/src/rm_alloc.c:718-783 | splitting on either side, in either mode, is cutting the block and retiring the rest |
| `RmTheorems.SearchIsBestFit` | rm/src/rm_alloc.c:931-1013 | the segregated search finds a smallest free block that fits among all free blocks, and nothing only if none fits |
| `RmRuns.MallocIsBestFit` | rm/src/rm_alloc.c:931-1108 | the result lies in a smallest free block that fits, and the heap grows if and only if none does |
| `RmLive.MallocMeans` | rm/src/rm_alloc.c:931-1108 | one block of at least the size asked for is added to the blocks in use, aligned, and no other changes |
| `RmLive.FreeLive` | rm/src/rm_alloc.c:1116-1143 | exactly the freed block is no longer in use |
| `RmInv.FreeInv` | rm/src/rm_alloc.c:596-695 | free keeps the invariant: tiling, flags, no adjacent free blocks, exact sorted lists |
| `RmRuns.ReallocMeans` | rm/src/rm_alloc.c:1153-1278 | a resized block is large enough, at its address or a new one; failure loses nothing; size 0 frees |
| `RmExact.RoundIsLeast` | rm/src/rm_alloc.c:363-366 | a size is rounded up to the least multiple of 8 that is at least 8 |
| `RmExact.MallocExactly` | rm/src/rm_alloc.c:931-1108 | the block is cut from a smallest free block that fits, or from new pages exactly if none fits; a rest of more than 16 bytes is cut off on alternating sides, a smaller one stays; no other block in use changes |
| `RmExact.ReallocExactly` | rm/src/rm_alloc.c:1153-1278 | a resize fails if and only if the block with a free next one is too small and the heap cannot grow, by the difference at its end, or by a new block if no free one fits; the block stays in place exactly if that space or the growth suffices, and moves otherwise |
| `RmExact.FreedComesBack` | rm/src/rm_alloc.c:491-583 | a freed block with used neighbours is the one the next request for its size gets, and the blocks in use are as before |
| `RmRuns.WellFormed` | rm/src/rm_alloc.c:155-230 | after every run the blocks tile the heap, flags match neighbours, no two free blocks are adjacent, blocks are aligned, `last_block` is last |
| `QuickFind.Finder.MakeSet` | ll-core/src/LQuickFindStatic.c:70-81 | a new item is alone in its set and together with no other; an existing one changes nothing |
| `QuickFind.Finder.Find` | ll-core/src/LQuickFindStatic.c:87-95 | the representative, or the invalid id exactly for items in no set |
| `QuickFind.Finder.Union` | ll-core/src/LQuickFindStatic.c:101-168 | afterwards the two items have one representative, that of the larger set, and items are together exactly if they were, or each was with one of the two; fails exactly if either is in no set |
| `QuickFind.RunInv` | ll-core/src/LQuickFindStatic.c:101-168 | in every run a representative's list enumerates exactly its other members, once |
| `QuickFind.FindMeansRelated` | ll-core/src/LQuickFindStatic.c:87-168 | after any run exactly the items made have a representative, which represents itself, and two have the same one if and only if the equivalence closure of the unions of existing items relates them |
| `QuickFind.FewMoves` | ll-core/src/LQuickFindStatic.c:117-167 | with n items an item's representative changes at most log2(n) times |
| `IndexedHeap.Heap.Add` | ll-core/src/LHeap.c:108-142 | binds a handle that is not live, reusing returned ones, and changes no other binding |
| `IndexedHeap.Heap.Remove` | ll-core/src/LHeap.c:149-200 | removes the binding of a live handle and marks it; a marked handle is refused |
| `IndexedHeap.Heap.RemoveExtracted` | ll-core/src/LHeap.c:149-200 | removing the handle that was just extracted as the only one is not refused: position 0 is taken for the last entry, the handle is given back twice, and the count wraps around |
| `IndexedHeap.WhatIsGiven` | ll-core/src/LHeap.c:149-156 | a handle once given passes the check if and only if it is live or was just extracted as the only one |
| `IndexedHeap.Heap.Update` | ll-core/src/LHeap.c:207-243 | rebinds a live handle and changes no other binding; any other handle is refused, except the one just extracted as the only one, whose old entry is overwritten while the heap stays empty |
| `IndexedHeap.Heap.ExtractMin` | ll-core/src/LHeap.c:250-292 | removes a binding of minimum key; its handle looks unused afterwards if and only if it was not the only one |
| `IndexedHeap.Heap.GetMin` | ll-core/src/LHeap.c:299-303 | a binding of minimum key, if there is one |
| `IndexedHeap.Heap.GetEntryAt` | ll-core/src/LHeap.c:310-317 | the binding of a live handle; any other is refused, except the one just extracted as the only one, whose old entry is given |
| `IndexedHeap.RootIsLeast` | ll-core/src/LHeap.c:250-257 | the first entry of a heap is a minimum for any strict weak order |
| `HashTable.Hash32.InsertItem` | ll-core/src/LHash.c:145-206 | inserts at the index computed before the removal, if that is still in the table |
| `HashTable.Hash32.RemoveItem` | ll-core/src/LHash.c:245-343 | removes a key and no other, moves the first of a collision list up, and halves the table exactly if it is larger than at first and less than a tenth is used afterwards |
| `HashTable.Hash32.GetItemByKey` | ll-core/src/LHash.c:387-411 | the item bound to a key |
| `HashTable.Hash32.IsInTable` | ll-core/src/LHash.c:213-239 | whether a key is bound |
| `HashTable.Hash32.ReplaceItemByKey` | ll-core/src/LHash.c:417-450 | replaces the item of a bound key, and nothing else |
| `HashTable.Hash32.Rehash` | ll-core/src/LHash.c:624-693 | moves every binding to a table of another size, or leaves the table alone without memory |
| `HashTable.Hash32.AppendAt` | ll-core/src/LHash.c:695-731 | appends to an entry; collision lists are on used entries, not empty, and counted |
| `HashTable.Hash32.InsertAt` | ll-core/src/LHash.c:162-204 | appends to an entry, and doubles the table exactly if more than three quarters of the entries then have a collision list |
| `HashTable.ResizeValid` | ll-core/src/LHash.c:624-693 | rehashing preserves every binding, for any size |
| `HashTable.RemoveMeans` | ll-core/src/LHash.c:245-343 | removal gives up one binding and no other, through any shrink |
| `HashTable.InsertExactly` | ll-core/src/LHash.c:145-206 | insertion binds the key and changes no other binding if and only if removing the key first does not shrink the table or its index is 0 |
| `HashStale.StaleRun` | ll-core/src/LHash.c:158-163 | a run of insertions and deletions from the empty table, with memory for every change of size, after which inserting a present key uses an index outside the table |
| `HashTable.RunRefines` | ll-core/src/LHash.c:145-343 | over any run of proper operations the table stands for the map, and the item count is its size |
| `HashStatic.ProbesVisitAll` | ll-core/src/LHashStatic.c:22-28 | for any prime size whose probes do not wrap, each key's probes visit every slot exactly once |
| `HashStatic.SizesVisitAll` | ll-core/src/LHashStatic.c:37-64 | for each size of the source's table, the probes of all keys visit every slot once if and only if they do not wrap around |
| `HashStatic.KeyExactly` | ll-core/src/LHashStatic.c:88-103 | in every run, inserting the key fails on full tables only, if and only if its probes are all different |
| `HashStatic.SizesExactly` | ll-core/src/LHashStatic.c:37-103 | for each size of the source's table, inserting any key after any run fails on full tables only, if and only if `m * (m - 1) < 2^32` |
| `HashStatic.SizeFails` | ll-core/src/LHashStatic.c:88-103 | for each larger size, a run of insertions into an empty table after which a key is refused although a slot is free |
| `HashStatic.FailingRun` | ll-core/src/LHashStatic.c:22-28 | whenever two probes of a key meet, inserting all slot numbers but one leads to a table with room that refuses the key |
| `HashStatic.FailsOnlyIfFull` | ll-core/src/LHashStatic.c:88-103 | for a prime size whose probes do not wrap, insertion into any table fails if and only if it is full |
| `HashStatic.PutHolds` | ll-core/src/LHashStatic.c:88-143 | the first insertion of a key decides what is found |
| `HashStatic.New` | ll-core/src/LHashStatic.c:34-64 | an empty table of the least size of the source's table that is large enough, or null |
| `HashStatic.Static.InsertItem` | ll-core/src/LHashStatic.c:88-103 | fills the first free slot of the probes, and fails if and only if there is none, which for the smaller sizes is if the table is full |
| `HashStatic.Static.GetItemByKey` | ll-core/src/LHashStatic.c:130-143 | the item a key was first bound to, for every size; the all-ones key is never found |
| `HashStatic.Static.IsInTable` | ll-core/src/LHashStatic.c:110-123 | whether a key has been bound |
| `Pool.Pool.Alloc` | dc2/include/pool.h:128-142 | gives a block that was not in use, and changes the use of no other; null if no block is free and no page can be had |
| `Pool.Pool.Free` | dc2/include/pool.h:145-155 | puts a block in use at the front of the free list |
| `Pool.Pool.AddPage` | dc2/src/pool.c:308-335 | chains a page and threads all its blocks but the first, last one first; null and no change if there is no page |
| `Pool.BlocksApart` | dc2/src/pool.c:308-335 | blocks of all pages are disjoint, and each is listed once |
| `PoolIterator.Lookup` | dc2/src/pool.c:356-365 | binary search for the smallest address not less than the given one |
| `PoolIterator.Iterator.constructor` | dc2/src/pool.c:205-260 | starts before the first block of the first page |
| `PoolIterator.Iterator.Advance` | dc2/src/pool.c:371-405 | passes one block, and goes to the next page of the chain at the end of a page |
| `PoolIterator.Iterator.NextBlock` | dc2/src/pool.c:268-290 | gives the next block in use of those still to be visited, or null if there is none |
| `PoolIterator.VisitsUsedOnce` | dc2/src/pool.c:205-290 | the blocks so visited are exactly those in use, each once |
| `Graph.AddedGood` | ll-core/src/LGraph.c:264-386 | a new edge joins three lists and the graph stays good: exact doubly linked chains, degrees, indices |
| `Graph.RemovedGood` | ll-core/src/LGraph.c:393-595 | deleting an edge keeps the graph good, and the last edge takes its place and index |
| `Graph.SwapChain` | ll-core/src/LGraph.c:404-448 | the pointer writes of every case leave a proper chain with the last edge in the place of the deleted one |
| `Graph.DeleteChain` | ll-core/src/LGraph.c:454-595 | bypassing an edge leaves a proper chain of the others |
| `Graph.AppendChain` | ll-core/src/LGraph.c:294-356 | linking an edge after the last one leaves a proper chain |
| `GraphObject.LGraph.NewNode` | ll-core/src/LGraph.c:116-146 | a new node without edges |
| `GraphObject.LGraph.NewEdge` | ll-core/src/LGraph.c:264-386 | the edge is at the end of its three lists, and every array of edge data has room for it |
| `GraphObject.LGraph.DelEdge` | ll-core/src/LGraph.c:393-595 | the edge is off its lists, and every other edge keeps its data in every array |
| `GraphObject.LGraph.DeleteInfos` | ll-core/src/LEdgeInfo.c:202-221 | the last item of each array takes the place of the deleted one |
| `GraphObject.LGraph.AddInfos` | ll-core/src/LEdgeInfo.c:227-241 | each array gets one item more and keeps the others |
| `GraphObject.LGraph.AssignItemAt` | ll-core/src/LEdgeInfo.c:115-134 | changes the data of one edge in one array |
| `GraphObject.LGraph.FetchItemAt` | ll-core/src/LEdgeInfo.c:141-156 | reads the data of an edge |
| `GraphObject.DataFollows` | ll-core/src/LEdgeInfo.c:202-221 | arrays and indices renumbered alike keep the data of every surviving edge |

## Left out

- Solver.Globals.DispatchOne: final handlers (`dc_schedule_final` and `_exec_final`, dc2/src/dc_solver.c:750-766 and 823-882) are not modelled, so a turn neither runs them nor goes on because of them.
- Solver.Globals.Dispatch: takes a bound on its steps, because cyclic constraints may never settle; what it states when it returns does not depend on the bound. Final handlers are not modelled.
- Solver.Globals.Call: the same holds for the dispatch loop it runs; an operation a body may not do, such as deleting a constraint twice, is passed over.
- Solver.Globals.IsEmptyGroup: says when `dc_del_group` refuses; the deletion itself, and groups whose members are deleted but still queued, are not modelled.
- Solver.Globals.NewCons: the counter of a group is an unbounded number, so it does not run out at 2^29.
- Replacing the scheduler of a group at run time (`dc_set_scheduler_type`) is not modelled; a group's scheduler may pick any queued member.
- Profiling, tracing, messages, dumps, C++ wrappers, and the patching and emulation of memory instructions are not modelled. The calling rule
  of the handlers is kept: a load runs the read handler if logging is on and the cell is untouched, a store runs the write
  handler after the store unless the cell is already logged as written.
- Reactive memory is zero until first written, and `dc_free` followed by reuse of the block is not modelled.
- Out of memory in the solver is not modelled, nor is the page-wise carving of its pools (one object is handed out at a time; `Pool` has the pages).
- DcFixpoint.CommonFixpoint: bodies read and write only; it does not cover bodies that create or delete constraints, whose rerun would change more than memory.
- DcStuck.NeverStuck: what the program does after it has executed a null constraint is not modelled; time-stamp overflow is a halt.
- RmAlloc.Allocator.Malloc: sizes are unbounded numbers, so rounding does not wrap around near 4 gigabytes.
- RmAlloc.Allocator.constructor: memory is large enough for the first extension; the failure of the first extension is not modelled.
- The wrappers of the allocator that add an offset and `calloc` are not modelled; `_rm_sbrk` is a bound on one array.
- IndexedHeap.Heap.Remove: does not take the handle that was just extracted as the only one, for which the code reads a word that was never written; `RemoveExtracted` says what it does with it.
- IndexedHeap.Heap.GetEntryAt: handles that were never given out are not passed to it, nor to `Update` and `Remove`; their entries are uninitialised memory.
- IndexedHeap.Heap.Add: sizes stay below the marker value.
- HashTable.Hash32.InsertItem: memory statistics are left out; a table of 32 index bits does not grow.
- Pool.Pool.AddPage: the operating system gives pages that do not overlap.
- GraphObject.LGraph.NewEdge: undirected graphs have no self-loops; the list of nodes, node deletion, node data and edge maps are not modelled; nodes and edges are entries of tables named by numbers, not heap objects.
- Array growth by fractions of the size is modelled as enough room, except where an array is copied.
