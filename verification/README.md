# Verification of the SO3 teaching kernel's memory, processes and user programs

This Dafny project models the parts of the SYE 2021-2022 laboratory repository whose behaviour is
hard to see from one function, and proves what they keep over whole runs. `dafny verify
dfyconfig.toml` checks it.

* **Page tables** (`PageTables`, `Mapping`, `Releasing`, `Mmu`). The two-level ARM short-descriptor
  tables of `arch/arm32/mmu.c`, with level-1 and level-2 tables at explicit addresses in kernel
  memory. `create_mapping` and `release_mapping` are proved against a flat map from virtual page to
  frame, whatever mix of 1 MB sections and level-2 tables they cross, and against the set of
  allocated level-2 tables.
* **Processes** (`KernelState`, `KernelSteps`, `KernelFork`, `KernelExec`, `KernelRuns`, and the
  class `Kernel` with `Duplicate`, `KernelCopy`, `KernelAlloc`, `KernelBoot`). `kernel/process.c`
  joined with the page tables: the state is the process list, the frame reference counts, the page
  tables and the bytes of every frame. Each system call is a method on the mutable kernel that is
  proved to perform a step relation; every step keeps one invariant, `KernelState.Inv`; and over every
  run of fork, exec, exit, wait, sbrk and user stores the processes are isolated from each other.
* **Argument page** (`ArgsPage`). The serialiser of exec, byte for byte, with its relocation to
  user space and a decoder that reads it the way a new program does.
* **Page replacement** (`Replacement`, `LruTheory`, `LruBound`, `WscTheory`). The simulator on its bit-packed
  table, LRU against ideal LRU and against every other schedule, WSClock against its specification.
* **Tic-tac-toe** (`TicTacToe`, `TicTacToeProtocol`). The board, the computer's move, and the game
  of the two processes over two FIFO queues.
* **Letter counting** (`LetterCount`) under every interleaving of the threads, and the **memory
  simulator** (`MemSim`) against one flat array.

`Runs` holds the one induction over runs; `Wrappers` the shared types. Operations that may pick any
free frame or table are specified by relations (`Mapped`, `ForkDone`, ...), since the allocator's
choice is not determined; the lemmas say what every choice has in common.

Where the code and what is said about it differ, the model follows the code:

* `virt_to_phys_pt` keeps only 12 offset bits in a section and does not test the level-2 entry
  (`Mmu.WalkReadsFlatMap` says exactly when it is right).
* `free_l1_mapping` drops a whole slot's level-1 entry without freeing a level-2 table behind it
  (`Releasing.ReleaseUndoesMapping` says exactly when nothing is lost).
* The computer's "min-max" never asks who has won, so it plays the first empty cell.
* `updateTDU` tests two masks that have no bit in common, so it never changes anything.
* The LRU clock has 8 bits; `LruTheory.ExactBound` and `LruBound.CompetitiveBound` give the exact run
  lengths up to which that is harmless.
* exec's test for failed arguments, at line 558 of `process.c`, compares a pointer with `< 0` and never
  fires (`Kernel.DoExec`).

## Model

| member | source | states |
|---|---|---|
| Mmu.Tables.AllocInitPte | sye22_lab05_rendu/so3/arch/arm32/mmu.c:75-115 | the entries of the range go to consecutive frames in the slot's table, allocated blank on demand; all other entries and tables stay |
| Mmu.Tables.AllocInitSection | sye22_lab05_rendu/so3/arch/arm32/mmu.c:121-148 | a whole aligned megabyte becomes one section entry, anything else page entries |
| Mmu.Tables.CreateMapping | sye22_lab05_rendu/so3/arch/arm32/mmu.c:159-190 | the loop over sections performs `Mapped`: every slot of the root in range is set as its part of the range demands, every other slot, root and table is as before |
| Mapping.MappedFlat | sye22_lab05_rendu/so3/arch/arm32/mmu.c:75-190 | refinement: the flat map changes at exactly the pages of the range, to consecutive frames, and nowhere else in that root |
| Mmu.MappedBytes | sye22_lab05_rendu/so3/arch/arm32/mmu.c:159-190 | byte by byte: addresses in the pages of the range translate to the physical base's frame plus their distance from the first page, all others of the root as before |
| Mmu.RangeIs | sye22_lab05_rendu/so3/arch/arm32/mmu.c:168-169 | the pages of a byte range are exactly those that hold a byte of it |
| Mapping.MappedElsewhere | sye22_lab05_rendu/so3/arch/arm32/mmu.c:75-190 | every other root translates as before, except through kernel tables that it shares |
| Mapping.MappedUnshared | sye22_lab05_rendu/so3/arch/arm32/mmu.c:90-98 | mapping never makes two slots share a level-2 table |
| Mapping.MappedRange | sye22_lab05_rendu/so3/arch/arm32/mmu.c:75-190 | shape and ownership are kept and no table is left empty; no table is lost if every table that a section replaces is still another root's |
| Mapping.MappedWellFormed | sye22_lab05_rendu/so3/arch/arm32/mmu.c:121-148 | create_mapping alone keeps the tables well formed if and only if every level-2 table that a section replaces is still another root's; otherwise one is lost |
| Mmu.Tables.FreeL2Mapping | sye22_lab05_rendu/so3/arch/arm32/mmu.c:193-223 | the entries are cleared, and the table is freed and unlinked exactly when no entry is left in use |
| Mmu.Tables.FreeL1Mapping | sye22_lab05_rendu/so3/arch/arm32/mmu.c:226-251 | a whole slot only loses its level-1 entry; a part goes through its level-2 table |
| Mmu.Tables.ReleaseMapping | sye22_lab05_rendu/so3/arch/arm32/mmu.c:256-279 | the loop performs `Released` on the range: per slot, and which tables go |
| Releasing.ReleasedFlat | sye22_lab05_rendu/so3/arch/arm32/mmu.c:193-279 | exactly the pages of the range lose their translation in the flat map |
| Releasing.ReleasedWellFormed | sye22_lab05_rendu/so3/arch/arm32/mmu.c:226-251 | release_mapping alone keeps the tables well formed if and only if every level-2 table behind a wholly released slot is still another root's |
| Releasing.ReleaseUndoesMapping | sye22_lab05_rendu/so3/arch/arm32/mmu.c:159-279 | mapping an unmapped range and releasing it gives back all roots and the very set of tables if and only if no level-2 table hangs below a wholly covered slot; otherwise tables leak |
| Mmu.Tables.VirtToPhysPt | sye22_lab05_rendu/so3/arch/arm32/mmu.c:549-569 | the walk of the tables, with its BUG_ON, its untested level-2 entry and its 12 offset bits |
| Mmu.WalkReadsFlatMap | sye22_lab05_rendu/so3/arch/arm32/mmu.c:549-569 | the walk gives the hardware's address if and only if it is not a hole in a level-2 table and, in a section, address bits 12 to 19 are zero |
| Mmu.WalkElsewhere | sye22_lab05_rendu/so3/arch/arm32/mmu.c:549-569 | what the walk answers where it is wrong: in a section the hardware's address less the page named by bits 12 to 19, at a hole the bare offset |
| Mmu.WalkReadsMapping | sye22_lab05_rendu/so3/arch/arm32/mmu.c:549-569 | after create_mapping the walk reads back the frame that was asked for |
| Mmu.Tables.CopyKernelArea | sye22_lab05_rendu/so3/arch/arm32/mmu.c:350-358 | the kernel slots become the system root's, the user slots stay |
| Mmu.Tables.NewRootPgtable | sye22_lab05_rendu/so3/arch/arm32/mmu.c:364-377 | an empty root at an address that is not in use |
| Mmu.Tables.ResetRootPgtable | sye22_lab05_rendu/so3/arch/arm32/mmu.c:390-418 | every level-2 table of the user slots is freed once, the kernel entries stay, and the root goes if asked |
| Mmu.ResetWellFormed | sye22_lab05_rendu/so3/arch/arm32/mmu.c:390-418 | afterwards no user page of the root is mapped and every other translation is unchanged; no table is lost or dangling if and only if the root stays or its kernel tables are also another root's |
| Kernel.Kernel.DuplicatePage | sye22_lab05_rendu/so3/arch/arm32/mmu.c:486-501 | a new frame, listed for the child, mapped at the same page, with the bytes of the parent's page; the tables stay sound |
| Kernel.Kernel.DuplicateSlot | sye22_lab05_rendu/so3/arch/arm32/mmu.c:459-504 | one slot is copied entry by entry, into a table of its own |
| Kernel.Kernel.DuplicateUserSpace | sye22_lab05_rendu/so3/arch/arm32/mmu.c:449-508 | the child maps exactly the parent's user pages, with equal bytes on fresh frames; every other root translates as before and the fixmap page is gone again |
| Kernel.Kernel.ReleaseFixmap | sye22_lab05_rendu/so3/arch/arm32/mmu.c:505-508 | releasing the fixmap page frees its table and leaves the copy complete |
| Duplicate.FixMapped | sye22_lab05_rendu/so3/arch/arm32/mmu.c:493 | mapping a frame at the fixmap page changes no user translation of either process |
| Duplicate.TableAdded | sye22_lab05_rendu/so3/arch/arm32/mmu.c:469-476 | a blank table for a slot of the child changes no user translation of parent or child, and keeps the copying invariant with that table as the one that may be empty |
| Duplicate.PageWritten | sye22_lab05_rendu/so3/arch/arm32/mmu.c:495-497 | writing the child's entry maps one page in the child and changes nothing in any older root |
| KernelCopy.CopyAdvance | sye22_lab05_rendu/so3/arch/arm32/mmu.c:479-503 | the copying invariant advances by one page: what is copied so far is equal, fresh and counted |
| KernelCopy.CopyFinish | sye22_lab05_rendu/so3/arch/arm32/mmu.c:449-508 | after the last slot and the release, the copy is complete and the tables are well formed |
| Kernel.Kernel.NewProcess | sye22_lab05_rendu/so3/kernel/process.c:191-246 | a PCB with the next pid at the end of the list, with a new root that shares the kernel area |
| Kernel.Kernel.DoFork | sye22_lab05_rendu/so3/kernel/process.c:764-853 | performs `ForkDone` and returns the child's pid, which is the next one |
| KernelFork.ForkMaps | sye22_lab05_rendu/so3/kernel/process.c:799-818 | page by page, the child maps a frame if and only if the parent does, and their bytes are equal |
| KernelFork.ForkKeeps | sye22_lab05_rendu/so3/kernel/process.c:764-853 | fork keeps the whole invariant: list order, parents, ownership, counts, tables |
| KernelFork.ForkAccounts | sye22_lab05_rendu/so3/kernel/process.c:764-794 | page_count, page-list length and mapped pages still agree in the child |
| Kernel.Kernel.AllocatePage | sye22_lab05_rendu/so3/kernel/process.c:293-306 | so many fresh frames, counted once and listed in order, mapped to consecutive pages; all other translations stay |
| KernelAlloc.AllocatedOneMore | sye22_lab05_rendu/so3/kernel/process.c:297-305 | one more round extends the region, the counts and the list by one page |
| Kernel.Kernel.ReleaseProcPages | sye22_lab05_rendu/so3/kernel/process.c:370-386 | each listed entry takes one off its frame's count, a frame is freed exactly when its count reaches zero, and the list is empty |
| KernelAlloc.DroppedFreed | sye22_lab05_rendu/so3/kernel/process.c:370-386 | with every frame counted once, exactly the listed frames are freed |
| Kernel.Kernel.ClearImage | sye22_lab05_rendu/so3/kernel/process.c:564-571 | the old user space is unmapped and its frames are given back |
| Kernel.Kernel.ReplaceImage | sye22_lab05_rendu/so3/kernel/process.c:561-609 | performs `ExecDone`: stack, image, heap and argument pages on new frames, the old ones given back, heap base and break at (stack + image + 1) pages |
| Kernel.Kernel.DoExec | sye22_lab05_rendu/so3/kernel/process.c:544-616 | the same, and the argument page of the new image decodes to the caller's argv (or the process name) and envp whenever they fit; when they do not, the image is replaced all the same |
| KernelExec.ExecWritten | sye22_lab05_rendu/so3/kernel/process.c:611-613 | filling the argument page disturbs nothing else of the new image |
| KernelExec.PositionOneToOne | sye22_lab05_rendu/so3/kernel/process.c:573-611 | the four regions are disjoint: no two pages have the same place on the page list |
| KernelExec.PositionOnto | sye22_lab05_rendu/so3/kernel/process.c:573-611 | every place on the page list belongs to a page of one of the four regions |
| KernelExec.ExecLayout | sye22_lab05_rendu/so3/kernel/process.c:573-609 | the new image in plain page numbers: which pages are mapped and no others, stack top, page_count, and the heap one page above stack and image pages together |
| KernelState.HeapPagesAre | sye22_lab05_rendu/so3/kernel/process.c:595-596 | the heap has the fewest pages that hold HEAP_SIZE bytes |
| KernelExec.ExecOwns | sye22_lab05_rendu/so3/kernel/process.c:544-616 | after exec the page list is exactly the frames that are mapped, one page each |
| KernelExec.ExecHeap | sye22_lab05_rendu/so3/kernel/process.c:596-603 | after exec the whole heap is mapped and the break is at its base |
| KernelExec.ExecKeeps | sye22_lab05_rendu/so3/kernel/process.c:544-616 | exec keeps the whole invariant |
| KernelRuns.ExecAccounting | sye22_lab05_rendu/so3/kernel/process.c:573-611 | in every reachable state page_count, page-list length and the number of mapped user pages of an exec'd process, or a fork of one, are equal |
| Kernel.Kernel.DoExit | sye22_lab05_rendu/so3/kernel/process.c:915-959 | the root process panics and nothing changes; any other becomes a zombie with its status, its frames freed and its tables kept |
| KernelSteps.ExitKeeps | sye22_lab05_rendu/so3/kernel/process.c:915-959 | exit keeps the whole invariant; freed frames are mapped by no process that still runs |
| Kernel.Kernel.FindProcByPid | sye22_lab05_rendu/so3/kernel/process.c:84-98 | the first process with the pid, or none |
| Kernel.Kernel.FindProcZombieToClean | sye22_lab05_rendu/so3/kernel/process.c:119-133 | the first zombie that has not been reaped, or none |
| Kernel.Kernel.FindProcByParent | sye22_lab05_rendu/so3/kernel/process.c:138-151 | whether some process has this parent |
| Kernel.Kernel.RemoveProc | sye22_lab05_rendu/so3/kernel/process.c:171-186 | exactly the PCB with the pid leaves the list |
| Kernel.Kernel.Reap | sye22_lab05_rendu/so3/kernel/process.c:1022-1039 | the zombie's tables and root are freed; its PCB goes only if no process has it as parent |
| Kernel.Kernel.DoWaitpid | sye22_lab05_rendu/so3/kernel/process.c:977-1073 | which process is chosen (for a pid, that one; any int is taken as unsigned), exactly when there is none, exactly when it is not a zombie yet (and the call returns or blocks), the status handed back, that its PCB goes exactly if no process has it as parent, and that nothing else changes |
| KernelSteps.WaitKeeps | sye22_lab05_rendu/so3/kernel/process.c:977-1073 | wait keeps the whole invariant: no table is lost, no parent pointer dangles |
| KernelSteps.WaitIs | sye22_lab05_rendu/so3/kernel/process.c:1034-1039 | no PCB but the zombie's leaves the list, and it leaves if and only if no process has it as parent |
| KernelRuns.RunStatus | sye22_lab05_rendu/so3/kernel/process.c:934-938 | over every run, a zombie's status is the one that it exited with, whatever happened since |
| Kernel.Kernel.DoSbrk | sye22_lab05_rendu/so3/kernel/process.c:1086-1141 | the break moves or the call is refused, in wrapping 32-bit arithmetic, and the answer is -1 or the break before the call |
| KernelSteps.SbrkExact | sye22_lab05_rendu/so3/kernel/process.c:1086-1141 | despite the wrapping, an increment is granted if and only if the new break lies in the heap; then the answer is the old break, and -1 exactly for a refusal, which changes nothing |
| KernelSteps.SbrkKeeps | sye22_lab05_rendu/so3/kernel/process.c:1086-1141 | sbrk keeps the whole invariant |
| KernelRuns.HeapMapped | sye22_lab05_rendu/so3/kernel/process.c:596-601 | every address from heap_base to the break is mapped, in every state that keeps the invariant |
| KernelSteps.StoreKeeps | sye22_lab05_rendu/so3/arch/arm32/mmu.c:449-508 | a user store through a process's own tables keeps the invariant |
| KernelRuns.RunKeeps | sye22_lab05_rendu/so3/kernel/process.c:272-306 | over every run: reference counts equal page-list entries, no process maps a free frame or another's, tables are owned, pids ascend and parents are listed |
| KernelRuns.RunIsolates | sye22_lab05_rendu/so3/arch/arm32/mmu.c:449-508 | over every run, a process that takes no step itself stays alive and reads the same bytes on every user page, whatever the others store, fork, exec, exit, reap |
| KernelRuns.RunReads | sye22_lab05_rendu/so3/arch/arm32/mmu.c:449-508 | over every run, a process that neither execs nor exits reads on every user page exactly its own stores, in order, applied to what it read at the start |
| KernelRuns.StepReads | sye22_lab05_rendu/so3/kernel/process.c:799-818 | the same for one step, its own forks, waits and sbrks included |
| KernelRuns.StepIsolates | sye22_lab05_rendu/so3/kernel/process.c:799-818 | the same for one step of any kind |
| KernelRuns.MapsApart | sye22_lab05_rendu/so3/kernel/process.c:272-288 | two live processes never map the same frame |
| KernelRuns.MapsOwned | sye22_lab05_rendu/so3/kernel/process.c:272-288 | a live process maps only frames in use that are on its own list, or the root image |
| KernelRuns.ForkCopies | sye22_lab05_rendu/so3/kernel/process.c:799-818 | right after fork the child reads on every page what the parent reads |
| KernelRuns.StoreReadsBack | sye22_lab05_rendu/so3/arch/arm32/mmu.c:479-503 | a process reads back its own store, and its other pages are unchanged |
| KernelRuns.ReadsFrame | sye22_lab05_rendu/so3/arch/arm32/mmu.c:479-503 | what a live process reads on a page is the bytes of the frame that its own tables give |
| KernelRuns.ParentExists | sye22_lab05_rendu/so3/kernel/process.c:940-955 | a parent pointer leads to a process on the list with a smaller pid |
| KernelRuns.AncestorsListed | sye22_lab05_rendu/so3/kernel/process.c:138-246 | the parent relation has no cycle and never leaves the list |
| Kernel.Kernel.CreateRootProcess | sye22_lab05_rendu/so3/kernel/process.c:318-364 | boot ends in a state that satisfies the invariant, with the root process alone on the list, its stack pages on its listed frames, the image mapped unlisted, and nothing else in user space |
| ArgsPage.PreserveArgsAndEnv | sye22_lab05_rendu/so3/kernel/process.c:391-508 | NULL exactly for argc without argv or too little room; otherwise argc, pointers, NULL and strings laid out without overlap, and nothing written past the page |
| ArgsPage.Capacity | sye22_lab05_rendu/so3/kernel/process.c:409-507 | the room needed, in the caller's terms |
| ArgsPage.NeededGrowsBy | sye22_lab05_rendu/so3/kernel/process.c:409-507 | an empty page needs 8 bytes, and each string its length plus 5 |
| ArgsPage.PostSetupImage | sye22_lab05_rendu/so3/kernel/process.c:510-539 | every pointer follows the page to its new address, and the walk over the environment stops at the right NULL |
| ArgsPage.OffsetsApart | sye22_lab05_rendu/so3/kernel/process.c:440-500 | the stored strings follow each other without overlap |
| ArgsPage.PointersInside | sye22_lab05_rendu/so3/kernel/process.c:510-539 | every relocated pointer, and the string it leads to, lies in the page |
| ArgsPage.RoundTrip | sye22_lab05_rendu/so3/kernel/process.c:391-539 | decoding the page gives back argv, or the process name alone, and envp |
| ArgsPage.PageSays | sye22_lab05_rendu/so3/kernel/process.c:409-539 | the finished page in plain offsets: argc, argv pointers, envp pointers, NULL, and the strings one right after the other |
| ArgsPage.WordIs | sye22_lab05_rendu/so3/kernel/process.c:415-418 | words are 32 bits, least significant byte first |
| ArgsPage.PassArguments | sye22_lab05_rendu/so3/kernel/process.c:391-539 | the whole path: it succeeds exactly when there is room, and then the program reads what the caller passed |
| Replacement.Bits | sye22_lab07_rendu/usr/src/memreplace.c:14-26 | each flag operation sets its own flag and keeps the others and the page number |
| Replacement.Format | sye22_lab07_rendu/usr/src/memreplace.c:14-26 | which bit is which flag, and where the page number is |
| Replacement.SwapOk | sye22_lab07_rendu/usr/src/memreplace.c:46-49 | evicting one page for another keeps three pages in memory and consistent entries |
| Replacement.Pager.InitPageTable | sye22_lab07_rendu/usr/src/memreplace.c:115-125 | the start table: pages 0 to 2 in memory, page 3 in swap, every entry tagged |
| Replacement.Pager.ReplaceLRU | sye22_lab07_rendu/usr/src/memreplace.c:32-49 | the victim is the valid page with the smallest timestamp, the lowest of those, and it always exists |
| Replacement.Pager.IncCompteur | sye22_lab07_rendu/usr/src/memreplace.c:51-60 | the 8-bit clock advances, with wrap-around, and stamps the page |
| Replacement.Pager.AccessLRU | sye22_lab07_rendu/usr/src/memreplace.c:216-225 | one LRU access is the step of the specification |
| Replacement.Pager.ReplaceWSC | sye22_lab07_rendu/usr/src/memreplace.c:62-103 | the scan clears reference bits up to its stop and evicts the expired page, or else the lowest valid one, which always exists |
| Replacement.Pager.UpdateTDU | sye22_lab07_rendu/usr/src/memreplace.c:105-113 | the loop renews exactly the entries whose two masks meet |
| Replacement.Renewed | sye22_lab07_rendu/usr/src/memreplace.c:109 | which is none: every time of use stays what it was |
| Replacement.Pager.AccessWSC | sye22_lab07_rendu/usr/src/memreplace.c:226-236 | one WSC access is the step of the specification |
| Replacement.Pager.Serve | sye22_lab07_rendu/usr/src/memreplace.c:214-245 | a page number out of range changes nothing; any other is one access of the chosen policy |
| LruTheory.After | sye22_lab07_rendu/usr/src/memreplace.c:32-60 | over every run of any length: three valid pages, tags intact, VALID and SWAP never together, no stray REF |
| LruTheory.AccessOk | sye22_lab07_rendu/usr/src/memreplace.c:216-225 | a hit evicts nothing, a fault exactly the oldest page, and the invariants hold |
| LruTheory.InSwap | sye22_lab07_rendu/usr/src/memreplace.c:46-49 | after any run a page is in swap exactly if it is not in memory but was once, or is page 3 |
| LruTheory.IdealIsStep | sye22_lab07_rendu/usr/src/memreplace.c:28-60 | ideal LRU, defined as the first three distinct pages of the reversed run followed by 2, 1, 0, moves by the usual step |
| LruTheory.HoldsIdealUpTo256 | sye22_lab07_rendu/usr/src/memreplace.c:32-60 | on every run of at most 256 accesses the simulator holds exactly the ideal pages |
| LruTheory.AfterThrees | sye22_lab07_rendu/usr/src/memreplace.c:51-55 | a family of longer runs on which the wrapped clock evicts the newest page |
| LruTheory.ExactBound | sye22_lab07_rendu/usr/src/memreplace.c:28-60 | the simulator holds the ideal pages on all runs of n accesses if and only if n is at most 256 |
| LruTheory.IdealCompetitive | sye22_lab07_rendu/usr/src/memreplace.c:215-225 | ideal LRU faults at most three times as often as any schedule with three frames, up to a debt of at most three, on runs of any length |
| LruTheory.Competitive | sye22_lab07_rendu/usr/src/memreplace.c:215-225 | so does the simulator, on every run of up to 257 accesses; from the same start without the extra three |
| LruBound.Hits | sye22_lab07_rendu/usr/src/memreplace.c:215-225 | repeating a page in memory costs no fault and moves only its timestamp and the clock |
| LruBound.FourFaults | sye22_lab07_rendu/usr/src/memreplace.c:51-60 | once two pages have aged, the wrapping clock makes four accesses fault in a row, each evicting the page that the next needs |
| LruBound.CompetitiveBound | sye22_lab07_rendu/usr/src/memreplace.c:32-60 | three times any schedule plus three bounds the simulator's faults on all runs of n accesses if and only if n is at most 257 |
| LruBound.SameStartBound | sye22_lab07_rendu/usr/src/memreplace.c:32-60 | from the same start, three times any schedule does so if and only if n is at most 257 |
| WscTheory.WscAfter | sye22_lab07_rendu/usr/src/memreplace.c:62-113 | over every run of any length the same table invariants hold under WSC, and every time of use is zero |
| WscTheory.WscAccessOk | sye22_lab07_rendu/usr/src/memreplace.c:226-236 | a hit evicts nothing, a fault exactly the victim, and the invariants hold |
| WscTheory.WscInSwap | sye22_lab07_rendu/usr/src/memreplace.c:99-100 | the same under WSC |
| WscTheory.ReferencedIs | sye22_lab07_rendu/usr/src/memreplace.c:79-90 | after any run a page has its reference bit if and only if no scan has passed it since its last access |
| WscTheory.VictimUnreferenced | sye22_lab07_rendu/usr/src/memreplace.c:79-89 | the victim has lost its reference bit when it goes |
| WscTheory.VictimIs | sye22_lab07_rendu/usr/src/memreplace.c:62-103 | after any run: past DELTA the lowest idle page if there is one, otherwise the lowest page in memory, and which reference bits the scan takes |
| WscTheory.SecondChance | sye22_lab07_rendu/usr/src/memreplace.c:79-89 | past the threshold, the page accessed last is not the next to go while another is idle |
| TicTacToe.SomeAlignedIsLine | sye22_lab02_rendu/usr/src/tictactoe_gm.c:155-180 | the eight tests succeed exactly when one side owns one of the eight lines |
| TicTacToe.LinesAre | sye22_lab02_rendu/usr/src/tictactoe_gm.c:158-180 | the lines are the three rows, the three columns and the two diagonals |
| TicTacToe.Win | sye22_lab02_rendu/usr/src/tictactoe_gm.c:155-188 | won if and only if a side owns a line, even on a full board; a draw if and only if the board is full and none does |
| TicTacToe.Minmax | sye22_lab02_rendu/usr/src/tictactoe_gm.c:32-71 | terminates, gives the grid back as it was, and scores 0 |
| TicTacToe.ComputersTurn | sye22_lab02_rendu/usr/src/tictactoe_gm.c:78-106 | the grid is as before, and the answer is one more than the lowest empty cell; 0 only on a full grid |
| TicTacToe.ParseLine | sye22_lab02_rendu/usr/src/tictactoe_player.c:26-62 | accepted exactly if it is a short enough decimal number from 1 to 9, and then the cell is in 0 to 8 |
| TicTacToe.OneDigit | sye22_lab02_rendu/usr/src/tictactoe_player.c:44-53 | a number is from 1 to 9 exactly if it is such a digit after zeros only, and then it is that digit |
| TicTacToeProtocol.GameManager.PlayRound | sye22_lab02_rendu/usr/src/tictactoe_gm.c:295-329 | one round: the question, the computer's move, or the end of the game |
| TicTacToeProtocol.GameManager.TakeMove | sye22_lab02_rendu/usr/src/tictactoe_gm.c:235-254 | a legal answer is played, any other is rejected and nothing else changes |
| TicTacToeProtocol.GameManager.CheckGameState | sye22_lab02_rendu/usr/src/tictactoe_gm.c:259-283 | the message and the end of the game follow the state of the board |
| TicTacToeProtocol.InvStep | sye22_lab02_rendu/usr/src/tictactoe_gm.c:288-330 | every step of either process keeps the protocol's invariant |
| TicTacToeProtocol.LastMoveWins | sye22_lab02_rendu/usr/src/tictactoe_gm.c:259-275 | if a move ends a game, the one who moved owns a line through it and the other owns none |
| TicTacToeProtocol.GameSafe | sye22_lab02_rendu/usr/src/tictactoe_player.c:127-172 | in every state of every game: at most two messages to the player and one to the manager, an empty cell and no line while the game goes on, GAME_END never read, and at the end the true outcome: YOU_WIN, YOU_LOSE or NO_WINNER if and only if the board says so, the winner's line through the last move |
| TicTacToeProtocol.BoardStep | sye22_lab02_rendu/usr/src/tictactoe_gm.c:235-314 | a step leaves the board or puts one mark: the player's where the user said, exactly if that cell is empty, or the computer's in the lowest empty cell |
| TicTacToeProtocol.TurnsAlternate | sye22_lab02_rendu/usr/src/tictactoe_gm.c:290-323 | the player begins and the two take turns, in every state of every game |
| TicTacToeProtocol.NoDeadlock | sye22_lab02_rendu/usr/src/tictactoe_gm.c:235-330 | until both sides have finished, one of them can go on, or waits for the user only |
| TicTacToeProtocol.RankFalls | sye22_lab02_rendu/usr/src/tictactoe_gm.c:241-251 | every step but a rejection makes progress |
| TicTacToeProtocol.GameLength | sye22_lab02_rendu/usr/src/tictactoe_gm.c:288-330 | the length of a game is bounded by the number of rejected moves |
| LetterCount.Letter | sye22_lab03_rendu/usr/src/threads.c:37-42 | the counter of a character: its letter in either case, and none for anything else |
| LetterCount.CountLetters | sye22_lab03_rendu/usr/src/threads.c:28-46 | each counter grows by the number of occurrences in the chunk |
| LetterCount.CountIs | sye22_lab03_rendu/usr/src/threads.c:35-43 | the count of a letter is the number of positions that hold it in either case |
| LetterCount.ChunksPartition | sye22_lab03_rendu/usr/src/threads.c:160-197 | every position of the text lies in the chunk of exactly one thread |
| LetterCount.ChunkIs | sye22_lab03_rendu/usr/src/threads.c:187-197 | chunks are equal and in the order of the threads, the last one up to the end |
| LetterCount.Merge | sye22_lab03_rendu/usr/src/threads.c:220-227 | the result is the sum over the threads, letter by letter |
| LetterCount.TotalIsCount | sye22_lab03_rendu/usr/src/threads.c:187-227 | the finished threads' counts add up to the count of the whole text |
| LetterCount.ScheduleIndependent | sye22_lab03_rendu/usr/src/threads.c:187-227 | whatever the interleaving, with a counter's read and write as separate steps, the result is the sequential count |
| LetterCount.NoDeadlock | sye22_lab03_rendu/usr/src/threads.c:215-218 | until the result is there, main or a thread can go on |
| LetterCount.RunLength | sye22_lab03_rendu/usr/src/threads.c:187-227 | and no run is longer than two steps a character, two a thread, and two |
| MemSim.Memory.InitPageTable | sye22_lab06_rendu/usr/src/memsim.c:328-352 | frames in reverse order with their attributes, every page on a frame of its own |
| MemSim.InitTableOk | sye22_lab06_rendu/usr/src/memsim.c:328-352 | which pages that table lets an access read and write |
| MemSim.AddressesApart | sye22_lab06_rendu/usr/src/memsim.c:93-114 | two virtual addresses never share a physical byte |
| MemSim.Rules | sye22_lab06_rendu/usr/src/memsim.c:133-150 | which VALID and RWX bits refuse a read, and which a store |
| MemSim.Memory.FlatIs | sye22_lab06_rendu/usr/src/memsim.c:159 | a flat byte lies in the frame of its page's entry, at its own offset |
| MemSim.RefusedAddresses | sye22_lab06_rendu/usr/src/memsim.c:340-349 | the refused address ranges, in both geometries |
| MemSim.Memory.GetByte | sye22_lab06_rendu/usr/src/memsim.c:125-161 | the byte of the flat memory at the address modulo 65536, or a refusal, exactly by the VALID and RWX rule |
| MemSim.Memory.StoreByte | sye22_lab06_rendu/usr/src/memsim.c:172-210 | the flat memory changes at exactly that address; a refused store changes nothing |
| MemSim.Memory.Perform | sye22_lab06_rendu/usr/src/memsim.c:125-210 | after init_page_table, any sequence of accesses answers and ends as on one array of 65536 bytes, in both geometries, with and without attributes |

## Left out

- Mmu.Tables.CreateMapping: the range is non-empty and below 4 GB, since the do-while loops do not terminate properly otherwise, and a page-granular part must not land on an existing section, whose entry `alloc_init_pte` would take for a table; cache and access attributes are not modelled.
- Mmu.Tables.ReleaseMapping: a partly released slot must have a level-2 table that no other root still holds; the code does not check.
- Mmu.WalkReadsMapping: in a slot mapped by a section, only for addresses whose bits 12 to 19 are zero, since elsewhere it is false.
- Kernel.Kernel.DoExec: the page-aligned entry point and the number of image pages are inputs, and the constants keep stack, image, heap and arguments apart (`KernelExec.Fits`); the process name and the address of the scratch page are inputs too. Parsing the ELF file and the bytes that its loader puts into the image pages are not modelled.
- Kernel.Kernel.DoFork: the current root is the parent's, and the caller is the main thread; file descriptors, names, the child's thread, kernel stacks and registers are not modelled.
- Kernel.Kernel.DoWaitpid: ptrace stops and waiting by pid on a zombie that was already reaped (its thread pointer is gone) are not modelled, and blocking is an answer rather than a wait; like the code, it does not check that the target is the caller's child. The branch for a target that is no zombie after the join, which writes the status word differently, belongs to ptrace.
- Kernel.Kernel.GetFreePage: free frames never run out; the code stops the machine (`BUG_ON`) when they do. The allocator itself is not part of this model.
- ArgsPage.PreserveArgsAndEnv: malloc succeeds, the process name is shorter than its 80-byte field, and the scratch area has room for the strings that are copied before the check.
- TicTacToe.ParseLine: the number is not limited to an int, so that what `atoi` does on overflow is not modelled.
- LetterCount.CountLetters: characters are bytes, as plain char is unsigned on ARM, and counters do not wrap, since a text fits in memory.
- LetterCount.ScheduleIndependent: any positive number of threads; with a thread count of 0 or less the program divides by zero or allocates nothing. The clamp at 15 threads is immaterial to the result.
- Page-table entries are a datatype rather than 32-bit words, and `asm/mmu.h` is not part of this model: 4096 level-1 entries of 1 MB, 256 level-2 entries of 4 KB as in section B3.5 of the ARM Architecture Reference Manual (DDI 0406C).
- Kernel memory is two maps from address to table, and PCBs are records in a list, replaced where the code updates them in place; aliasing of PCB pointers is by pid.
- `tictactoe.h` and the kernel's configuration headers are not part of this model: EMPTY_ID is 0, PLAYER_ID is the opposite of a non-zero AI_ID, MAX_DEPTH is at least 1, and the user/kernel split, the fixmap slot and the sizes of stack and heap are arbitrary constants.
- Caches, TLBs, barriers and `mmu_switch`: table writes take effect at once.
- Interrupt masking and the scheduler: system calls are atomic steps.
- do_fork2, which repeats do_fork; do_mmap; ptrace and signals; user threads other than the main one.
- pid wrap-around: pids are unbounded.
- Rebuilding the game (`do ... while` in the manager's main), drawing, prompts and the terminal; the two pipes are ideal FIFO queues, so the read of the player's write end at sye22_lab03_rendu/usr/src/tictactoe_ipc.c:63 is taken as its comment intends.
- The null test of `virt_to_pte`, `print_page` and the simulator's own tests.
- Sockets, shell, file utilities, the timer driver and system-call dispatch: plumbing around the modelled parts.
