# Memory and processes of a small RISC-V kernel, in Dafny

This project models the memory and process core of a 64-bit RISC-V kernel and proves what the
kernel's page tables, its page allocator, its process copies and its scheduler guarantee.
`dafny verify dfyconfig.toml` checks all of it.

Three layers of state have to agree with each other.

* **Physical memory and the page allocator.** DRAM is one array of 64-bit words; `memset`,
  `memcpy` and every page table entry are reads and writes of that array. The allocator is a
  first-fit search over an array of bits, eight to a byte.
* **Sv39 page tables** live in that memory as raw words. A ghost map gives every allocated page
  its place: root, level-1 table, level-0 table or frame of one address space, or a loose page
  that no tree holds. `PageTables.WellFormed` says that entries, places and roots agree, that
  every page with a place is reached by walking to it, and that all roots share entries 0..255.
* **Processes**: control blocks, two intrusive linked lists, the scheduler and the system calls.
  The methods of `ProcessManagers.ProcessManager` work on arrays and lists in place; each is
  proved to make one step of the state machine `KernelRuns.Next`, about whose runs the theorems
  on isolation, sharing and scheduling are stated.

## How the model is built

* The operators `&` and `|` are defined on the binary digits of natural numbers below 2^64
  (`Words`), and every masked expression of the kernel is written with them; a shift is written
  as a multiplication or division by a power of two. `Sv39Bits` proves what these expressions
  are as quotients and remainders.
* There is no precondition that enough pages are free. Allocation reports failure as 0
  (`kernel/mem.cpp:239`) while most callers compare with -1 (`kernel/mem.cpp:159`,
  `kernel/process.cpp:52`, `:117`, `:184`), so a failed allocation is followed by a store near
  address 0, which no address space maps (`KernelRuns.NothingAtZero`), and the kernel stops in
  its trap handler (`kernel/interrupt.cpp:59-64`). The methods return `trapped` for that, and
  the contracts give the exact number of pages at which it happens. Only `copy_process` compares
  with 0 (`kernel/process.cpp:375`) and can report failure.
* A system call or timer interrupt is one atomic step, although the source enables interrupts
  while it handles a system call (`kernel/interrupt.cpp:46`).
* A step of a run is a fork, an exit, a timer interrupt or test call, or a 64-bit store by the
  running program, which the hardware translates by the algorithm of section 4.3.2 of the RISC-V
  Privileged Specification (module `Sv39`) through the root in `satp`.
* `ListItem2PCB` (address arithmetic from a link to its record) is the constant field `owner` of
  a link.
* The variable `flags` of `load_elf` is not initialised (`kernel/process.cpp:159`); the model
  takes its first value as the parameter `junk`, and `ElfLoader.JunkUnseen` shows that no mapped
  page depends on it.
* The invariant `KernelState.Good`, from which the theorems over runs start, is established by
  `ProcessManagers.KernelEntry`, which boots from arbitrary memory contents.

## Three properties that do not hold as one would like

* A fork whose copy runs out of pages leaves the child DEAD but queued
  (`kernel/syscall_manager.cpp:69-73`), and it later runs (`KernelRuns.FailedForkRuns`). Which
  end a fork comes to is decided by the pages in use and the parent's map alone.
  `KernelSteps.ForkFails` says that when the copy, in the order of addresses, reaches some mapped
  page of the parent, what was taken so far fills the pool exactly.
  `ProcessManagers.ProcessManager.DoFork` returns -1 exactly when no slot is free or that holds,
  a pid exactly when a slot is free and one page for every root, table and frame of the parent
  and one more is, and traps otherwise. Four free pages always lead to the bad end
  (`KernelSteps.FourPagesLeft`), and `ForkFailure.BootThenFork` gets there from boot: a
  program file of 272 KB, small enough to be linked into the kernel image of 1 MB, whose 256
  segments load the same bytes at 64 MB of addresses, and which forks once.
* The first page of a segment that the loader takes for unaligned gets the permissions of an
  earlier segment (`kernel/process.cpp:199`). `ElfLoader.FlagsRightIff` is the exact condition
  under which all pages of a segment are mapped with the permissions of its header.
  `WrongPermissions.BootWithoutW` boots a program whose data page, R and W in the file, is mapped
  without W, so that its first store there faults.
* `printf` sends its buffer as a C string, so a NUL printed with `%c` swallows what follows it in
  the chunk. `Printf.SendsTheRendering`: the output is the rendering of the format exactly when
  no `%c` takes an int that converts to NUL, that is a multiple of 256. `Printf.NulLosesText` is
  a call that sends one character of three.

## Files

| file | content |
|---|---|
| Words, Sv39Bits | machine words, bit operators, the address and entry arithmetic of Sv39 |
| BitMap, AddressPool | the bitmap, first fit, the page pool and its runs |
| PhysicalMemory | DRAM as words, with bytes and pages on top |
| PageTables, Mappings | well-formed tables; what each small change keeps; the effect of one mapping |
| BootMap, MemoryManager | the identity boot map and its cost; `kernel/mem.cpp` in place |
| Sv39 | the translation algorithm of the specification, and its agreement with the kernel's walks |
| AddressSpaces | what one space owns and sees, and what work on one space leaves alone |
| Copying, ProcessMemory | the copy loops of fork, page by page, with exact accounting |
| Elf, ElfFiles, ElfLoading, ElfLoader | file headers, read and written; what loading must produce; the loader |
| Lists | the intrusive doubly linked list |
| KernelState, KernelSteps, KernelRuns | the state machine, its invariant, and theorems over runs |
| ProcessCreation, ForkSteps, ProcessManager | process creation, system calls and boot in place |
| ForkFailure, WrongPermissions | two boots that end badly, one at the first fork, one at the first store |
| Numerals, Printf | numbers as text, and chunked output |

## Model

| member | source | states |
|---|---|---|
| Sv39Bits.L2Index | kernel/mem.cpp:252-255 | masking with PPN2_MASK and shifting gives bits 38..30 of the address |
| Sv39Bits.L1Index | kernel/mem.cpp:257-260 | masking and shifting gives bits 29..21 |
| Sv39Bits.L0Index | kernel/mem.cpp:262-265 | masking and shifting gives bits 20..12 |
| Sv39Bits.PageStart | kernel/mem.cpp:92 | masking with ~0xfff gives the start of the page |
| Sv39Bits.TargetsAgreeIff | kernel/mem.cpp:174-292 | the shifted and the masked way to follow an entry agree exactly when entry bits 54..61 are zero |
| Sv39Bits.PathOfAddress | kernel/process.cpp:382-386 | splitting the sign-extended address that copy_process rebuilds gives back the three indices, and the address is canonical |
| Sv39Bits.CanonicalAddress | kernel/process.cpp:382-386 | a canonical address is rebuilt from its indices and offset, so indices determine pages |
| Sv39Bits.MakePte | kernel/mem.cpp:203-204 | a written leaf has the page number of paddr and the given flags, whatever the low bits of paddr |
| Sv39Bits.SatpFor | kernel/process.cpp:244-250 | the new satp keeps mode and address space identifier and names the new root |
| Sv39Bits.SatpIs | kernel/process.cpp:244-250 | the mode, the address space identifier and the page number determine satp |
| Bitmaps.BitMap.constructor | kernel/bitmap.cpp:8-19 | all resources free, and no byte behind the bitmap touched |
| Bitmaps.BitMap.Get | kernel/bitmap.cpp:21-27 | the bit at the index, eight bits to a byte |
| Bitmaps.BitMap.Set | kernel/bitmap.cpp:29-42 | exactly one bit of the byte array takes the given status |
| Bitmaps.BitMap.Allocate | kernel/bitmap.cpp:44-85 | returns the least start of a free run of the given length, or -1 exactly when the length is 0 or no such run exists; sets exactly those bits, and none on failure |
| Bitmaps.BitMap.SkipUsed | kernel/bitmap.cpp:53-55 | stops at the next free position or at the end, with only taken ones before |
| Bitmaps.BitMap.CountFree | kernel/bitmap.cpp:63-69 | counts a free run up to the wanted length; a shorter count ends at a taken position or at the end |
| Bitmaps.BitMap.Release | kernel/bitmap.cpp:87-93 | clears exactly the bits of the run |
| Bitmaps.SetThenClear | kernel/bitmap.cpp:44-93 | releasing a run just allocated restores the bitmap byte for byte |
| AddressPools.AddressPool.Allocate | kernel/address_pool.cpp:16-20 | the address of the first free run, page aligned from the base, or -1 exactly when there is none |
| AddressPools.AddressPool.Release | kernel/address_pool.cpp:23-26 | the bits of exactly these pages are cleared |
| AddressPools.RunsStayConsistent | kernel/address_pool.cpp:16-26 | over any run of allocations and matching releases, outstanding blocks are disjoint, inside the pool, and exactly the set bits |
| AddressPools.TakeThenReturn | kernel/address_pool.cpp:16-26 | taking a block and returning it is the identity on the whole pool |
| PhysicalMemories.PhysicalMemory.MemSet | kernel/utils.cpp:225-231 | exactly the addressed bytes take the value, every other byte of DRAM keeps its own |
| PhysicalMemories.PhysicalMemory.MemCpy | kernel/utils.cpp:233-239 | every target byte holds what copying upwards byte by byte gives it, also when the ranges overlap; every other byte of DRAM keeps its own |
| PhysicalMemories.CopyOriginApart | kernel/utils.cpp:233-239 | for ranges that do not overlap, or a target before its source, that is the source's byte |
| PhysicalMemories.PhysicalMemory.MemCpyFrom | kernel/utils.cpp:233-239 | the same from constant bytes outside the pool |
| MemoryManagers.MemoryManager.constructor | kernel/mem.cpp:24-85 | the pool starts behind kernel image and bitmap, ends where DRAM ends, and is all free |
| MemoryManagers.MemoryManager.AllocatePhysicalPages | kernel/mem.cpp:233-240 | pages that nobody holds, by first fit, or 0; never -1 |
| MemoryManagers.MemoryManager.AllocatePage | kernel/mem.cpp:233-240 | one page that nobody holds, or 0 exactly when all 0x7eff pages are in use |
| MemoryManagers.MemoryManager.NeedL1 | kernel/mem.cpp:155-167 | traps exactly when a table is missing and the pool is empty; otherwise the table is there and no walk in any space changes |
| MemoryManagers.MemoryManager.NeedL0 | kernel/mem.cpp:174-189 | the same one level down |
| MemoryManagers.MemoryManager.ConnectVirtualPhysicalAddress | kernel/mem.cpp:141-210 | traps exactly when the missing tables outnumber the free pages; otherwise the walk of vaddr ends in paddr's page with the given flags, every other walk in every space is unchanged, only tables of this space are written, and the tables stay well-formed |
| Mappings.GrownThenSet | kernel/mem.cpp:196-204 | growing the tables and then writing the leaf has together the effect of one mapping |
| PageTables.WalkMeets | kernel/mem.cpp:174-204 | walking down from any root meets tables of the serving space at their place, and a valid leaf is a private frame or kernel memory |
| PageTables.RolesUnique | kernel/mem.cpp:141-210 | no two pages have the same place in a tree |
| PageTables.LinkL1Walks | kernel/mem.cpp:158-166 | a zeroed new level-1 table changes no walk of any address in any space |
| PageTables.LinkL0Walks | kernel/mem.cpp:178-186 | the same for a level-0 table |
| PageTables.SetLeafWalks | kernel/mem.cpp:203-204 | writing a leaf changes exactly one walk in one space |
| PageTables.SetLeafKeeps | kernel/mem.cpp:203-204 | well-formedness survives the write, also when an old page is replaced and left loose |
| MemoryManagers.MemoryManager.OpenPageMechanism | kernel/mem.cpp:87-133 | identity maps of all ranges and nothing else, with exactly the tables that the union of the ranges needs and lacks; traps exactly when these do not fit; satp has mode 8 and the boot root |
| BootMaps.BlocksClosed | kernel/mem.cpp:92-101 | the number of tables of one level that a contiguous range meets, in closed form |
| BootMaps.RangeTables | kernel/mem.cpp:92-101 | a contiguous range needs one table of either level for every block of that level it meets |
| BootMaps.CostBound | kernel/mem.cpp:92-101 | n contiguous pages need at most n/512 + 2 level-0 and n/2^18 + 2 level-1 tables |
| BootMaps.BootCost | kernel/mem.cpp:218-230 | the three boot ranges need 68 tables in all; CLINT and UART share their level-1 table |
| MemoryManagers.MemoryManager.Initialize | kernel/mem.cpp:212-231 | boot never runs out of pages, uses exactly 69, and maps CLINT, UART and DRAM one to one and nothing else |
| BootMaps.IdentityTranslates | kernel/mem.cpp:87-101 | every address of every identity-mapped range is translated by the walker of vaddr2paddr to itself |
| MemoryManagers.MemoryManager.L1PtePointer | kernel/mem.cpp:273-279 | the masked walker finds the level-1 entry that building a mapping would use |
| MemoryManagers.MemoryManager.L0PtePointer | kernel/mem.cpp:281-287 | the same for the level-0 entry |
| MemoryManagers.MemoryManager.Vaddr2Paddr | kernel/mem.cpp:289-295 | on a mapped address the masked walker returns the page and offset of the leaf in the tables, the one that connect_virtual_physical_address entered |
| Mappings.WalkEntries | kernel/mem.cpp:174-292 | on well-formed tables shifting and masking follow every valid entry to the same page |
| Sv39.WalkIsLeafAt | kernel/mem.cpp:174-204 | on these tables the algorithm of section 4.3.2 of the RISC-V Privileged Specification ends exactly in the kernel's own leaf |
| Sv39.UserTranslation | kernel/process.cpp:125 | a user access succeeds exactly when the address is canonical and its leaf is proper, has U and the permission |
| Sv39.UserHitsOwnFrame | kernel/process.cpp:49-85 | a user access only ever hits a frame of its own space, mapped in the user half |
| AddressSpaces.KeptSpaces | kernel/process.cpp:313-395 | work that is local to one space leaves every walk, all user memory and all pages of every other space alone |
| AddressSpaces.KeptConnect | kernel/mem.cpp:141-210 | mapping a fresh page in one space is local to it |
| AddressSpaces.ConnectedView | kernel/mem.cpp:203-204 | after a mapping the space sees the new page at that address and everything else as before |
| AddressSpaces.ConnectedCounts | kernel/mem.cpp:141-210 | one mapping adds exactly the missing tables and, for a new page, one frame, and leaves no table idle |
| AddressSpaces.FillFrame | kernel/process.cpp:380 | new contents of a frame change one page of one space |
| AddressSpaces.NewSpace | kernel/process.cpp:49-85 | a zeroed page with entries 0..255 copied from any root is a root that sees the kernel half of the boot table and nothing in the user half |
| AddressSpaces.RolesForSize | kernel/process.cpp:351-390 | the pages that a set of mappings needs do not depend on whose they are |
| ProcessMemory.CreateProcessL2PageTable | kernel/process.cpp:49-85 | traps exactly when no page is left; otherwise a new space with the kernel half shared and the user half empty |
| ProcessMemory.CopyOnePage | kernel/process.cpp:374-389 | one round copies one page to a frame that was free at the start; it returns false exactly when no page is left, and traps exactly when one is left but the frame's tables do not fit |
| ProcessMemory.CopyL0Table | kernel/process.cpp:366-390 | all pages below one level-0 table, in order, skipping entries that are not valid; false and trap each exactly when some page below it ends that way |
| ProcessMemory.CopyL1Table | kernel/process.cpp:358-391 | the same below one level-1 table |
| ProcessMemory.CopyUserMemory | kernel/process.cpp:344-394 | succeeds exactly when the pool has room for the child's missing tables and frames; returns false exactly when the pages before some mapped page fill the pool, and traps exactly when one of them fits only without its tables |
| Copying.CopyStep | kernel/process.cpp:374-389 | copying and mapping one page keeps the loop invariant: contents, flags, fresh frames, accounting |
| Copying.UsedIsUseAt | kernel/process.cpp:374-389 | when the copy reaches a page, the pages in use are a function of the parent's map at the start |
| Copying.UseOfPage | kernel/process.cpp:374-389 | copying one page takes its frame and exactly the tables that the pages before it did not need |
| Copying.OneEnd | kernel/process.cpp:374-389 | a copy cannot come to both bad ends, whatever the ranges of pages |
| Copying.EndsMeanNoRoom | kernel/process.cpp:351-394 | either bad end means that the pool has not room for the whole copy |
| Copying.CopyEnds | kernel/process.cpp:351-394 | at the end the child sees at every user address exactly what the parent saw, on fresh frames, and exactly the needed pages were allocated |
| Copying.SkipL0 | kernel/process.cpp:361-364 | an entry without V means that nothing below it is mapped |
| Elf.FlagsWordIs | kernel/process.cpp:204-219 | p_flags X, R and W become exactly the PTE bits X, R and W beside V and U |
| Elf.SegmentFlags | kernel/process.cpp:204-219 | PTE bits X, R and W are bits 0, 2 and 1 of p_flags |
| Elf.EntryBytes | kernel/process.cpp:241 | the entry point has the bytes 24..31 of every file |
| Elf.TableBytes | kernel/process.cpp:162-176 | in every file the program headers begin at the number in bytes 32..39, with the size in 54..55 and the count in 56..57; each field of every header has the bytes at its place |
| ElfFiles.WriteThenRead | kernel/process.cpp:162-176 | writing a file header and program headers and reading them as load_elf does is the identity |
| ElfLoader.LoadUnalignedPage | kernel/process.cpp:183-202 | the first page of an unaligned segment holds its file bytes at their offset and zeros around them, mapped with the flags left over |
| ElfLoader.LoadAlignedPage | kernel/process.cpp:183-236 | a page from an aligned position holds its file bytes and zeros behind them |
| ElfLoader.LoadSegment | kernel/process.cpp:178-238 | the page loop, with its retry through is_align, terminates and loads pages first to last of the segment |
| ElfLoader.LoadElf | kernel/process.cpp:149-242 | traps exactly when the pool is too small for all pages and tables of the file; otherwise every segment is loaded and the number in bytes 24..31 of the file is returned; without a file nothing happens |
| ElfLoading.LoadStep | kernel/process.cpp:181-238 | one more page loaded keeps the loading invariant: contents, flags, accounting, other spaces |
| ElfLoading.LoadEnds | kernel/process.cpp:149-242 | afterwards exactly the old pages and the segments' pages are mapped, and exactly the predicted pages are in use |
| ElfLoader.LoadedBytes | kernel/process.cpp:162-239 | with disjoint page ranges every file byte of every segment is readable at its address, whatever the alignment, and the rest of the segment's pages is zero |
| ElfLoader.LoadedByte | kernel/process.cpp:162-239 | without that condition, every page of the program holds the bytes and the flags of the last segment that covers it |
| ElfLoader.ByteSurvives | kernel/process.cpp:162-239 | a byte of a segment is readable exactly when no later segment covers its page, or the last one that does puts the same byte there |
| ElfLoader.AlignedFlags | kernel/process.cpp:171-225 | when all segments start on page boundaries and share no page, every page of a segment is mapped with exactly its permissions |
| ElfLoader.FlagsRightIff | kernel/process.cpp:171-225 | in the loaded tables all pages of a segment have its permissions exactly when its first page is not taken for unaligned or the left-over flags are the same |
| ElfLoader.WrongFirstPage | kernel/process.cpp:199 | a file, well-formed and accepted, whose data page is mapped executable and not writable whenever it has been loaded, although its header asks for R and W |
| WrongPermissions.BootWithoutW | kernel/process.cpp:199 | boot with that file succeeds, and the hardware refuses the program's stores to its own data page |
| ElfLoader.JunkUnseen | kernel/process.cpp:159-199 | the uninitialised flags are never used when the first segment that loads starts aligned |
| Lists.List.Size | kernel/list.cpp:14-26 | the number of items |
| Lists.List.Back | kernel/list.cpp:33-45 | the last item, or null |
| Lists.List.PushBack | kernel/list.cpp:47-55 | appends to the sequence, links mutually inverse back to the sentinel |
| Lists.List.PopBack | kernel/list.cpp:57-65 | drops the last item and clears its links |
| Lists.List.PushFront | kernel/list.cpp:72-82 | prepends to the sequence |
| Lists.List.PopFront | kernel/list.cpp:84-96 | drops the first item and clears its links |
| Lists.List.Insert | kernel/list.cpp:98-121 | inserts before the position; negative means the front, past the end nothing happens |
| Lists.List.Erase | kernel/list.cpp:123-143 | removes the item at the position; negative means the front, past the end nothing happens |
| Lists.List.EraseItem | kernel/list.cpp:145-162 | removes that item if it is there |
| Lists.List.At | kernel/list.cpp:163-172 | the item at the position, the first one for negative positions, null past the end |
| Lists.List.Find | kernel/list.cpp:174-192 | the first position of the item, or -1 exactly when it is not there |
| Lists.List.FindAt | kernel/list.cpp:163-192 | finding the item at a position gives the position |
| ProcessCreation.BuildSpace | kernel/process.cpp:98-140 | root, stack page and program; traps exactly when the pool is too small for all of them together |
| ProcessCreation.BuiltInPlace | kernel/process.cpp:98-140 | every user page of the new space is what the last segment that covers it makes it, or the stack page, or absent |
| ProcessCreation.InPlaceBytes | kernel/process.cpp:98-140 | with disjoint segments, every byte and permission that the process sees at an address of a segment, in terms of the file |
| KernelSteps.SpaceBuiltFacts | kernel/process.cpp:87-147 | a new process disturbs no other space, has its stack page mapped and no idle table; without a program it costs four pages |
| KernelSteps.StackBelow | kernel/process.cpp:115-126 | the 4096 bytes below the first stack pointer are the stack page |
| ProcessCreation.StackUsable | kernel/process.cpp:115-126 | a program without a segment on its stack page can load and store in each of them |
| KernelSteps.ForkCopies | kernel/process.cpp:344-394 | a successful fork: the child's user memory equals the parent's, page by page with flags, on frames that were free; it costs one page per root, table and frame of the parent and one more |
| KernelSteps.ForkMemoryFacts | kernel/process.cpp:313-395 | successful or not, fork changes nothing outside the child's space |
| KernelSteps.ForkDecided | kernel/syscall_manager.cpp:58-76 | the pages in use and the parent's map decide whether the copy is whole or fails half way |
| KernelSteps.FourPagesLeft | kernel/process.cpp:374-378 | with exactly four pages left every fork fails half way: root, stack page and two tables are made, and no frame is left |
| KernelSteps.StoreEffect | kernel/process.cpp:288 | a store by the running program changes one word of one of its own pages and nothing anywhere else |
| KernelRuns.StoreThenLoad | kernel/process.cpp:288 | after a store the process loads the new word there, and every other aligned word as before |
| KernelState.CleanReadyList | kernel/process.cpp:252-293 | in a clean state the ready list holds exactly the READY processes |
| KernelState.ScheduledIsGood | kernel/process.cpp:252-293 | scheduling keeps the whole invariant: lists, statuses, at most one RUNNING, satp on the current root |
| KernelState.ScheduledFacts | kernel/process.cpp:252-293 | only the statuses of the old and the new current process change, pids and roots stay, and the queue rotates |
| KernelState.ScheduledFields | kernel/process.cpp:252-293 | the process that leaves has one tick more, and its ticks since scheduling are 0 if it was RUNNING and one more otherwise; registers, frame, priority and parent of every process stay |
| KernelState.KilledIsGood | kernel/syscall_manager.cpp:46-51 | marking the current process DEAD keeps the invariant |
| KernelRuns.NextIsGood | kernel/syscall_manager.cpp:7-76 | every step keeps the invariant; a clean ready list stays clean unless a fork fails half way, and then it is not clean |
| KernelRuns.RunsAreGood | kernel/syscall_manager.cpp:7-76 | every state of every run from a good state is good, and clean while no fork has failed half way |
| KernelRuns.SchedulingFields | kernel/process.cpp:252-293 | a timer interrupt or exit with a queue, control block by control block: statuses, ticks and queue as the source sets them, everything else as it was; without a queue only exit's DEAD |
| KernelRuns.NextKeepsFrame | kernel/process.cpp:252-395 | no step changes the saved registers, switch frame, parent or priority of a live process, and its clock moves only when it leaves the CPU |
| KernelRuns.RunKeepsFrame | kernel/process.cpp:252-395 | the same along every run: total_ticks grows by the number of schedulings away from the process, modulo 2^64 |
| KernelRuns.NextLeavesOthers | kernel/syscall_manager.cpp:7-76 | a step changes the user memory of a live process only if it is a store by that process |
| KernelRuns.RunIsolation | kernel/process.cpp:87-395 | along every run the user memory of a process stays as it is until that process itself stores |
| KernelRuns.LoadFromView | kernel/process.cpp:49-85 | what a user load returns depends on nothing but the process's own user memory |
| KernelRuns.RunIsolationOfLoads | kernel/process.cpp:87-395 | along every run no load of a process can tell what others stored, forked or exited |
| KernelRuns.ForkGivesACopy | kernel/process.cpp:313-395 | after a successful fork the child loads at every address what the parent loaded before it, resumes as ForkedChild says, and is last in the queue; the parent keeps its control block and memory |
| KernelRuns.ForkedChild | kernel/process.cpp:313-341 | the child of every fork, whole or failed: start_process, sstatus with SIE cleared, the parent's sepc and 0 in its frame; the parent's registers with a0 = 0 and sp from sscratch; its parent's pid, priority and ticks; all other control blocks unchanged |
| KernelRuns.ForkThenRun | kernel/process.cpp:313-395 | along every run after the fork, until parent or child stores, both load at every address what the parent loaded before it |
| KernelRuns.SeparatePages | kernel/process.cpp:49-395 | frames and tables of different live processes are different pages, all of them allocated |
| KernelRuns.KernelHalf | kernel/process.cpp:60-82 | below entry 256 every space walks exactly like the boot table |
| KernelRuns.RunKeepsKernelHalf | kernel/process.cpp:60-82 | in every state of every run kernel and device addresses translate in every process as the boot table said at the start |
| KernelRuns.NothingAtZero | kernel/mem.cpp:226-230 | in every state of every run from boot the translation of addresses below CLINT ends without a leaf, in the boot table and in every process, so the store after a failed allocation traps |
| KernelRuns.TheDeadStayDead | kernel/process.cpp:252-293 | a process that is DEAD and has been switched away from never runs again |
| KernelRuns.ExitIsForGood | kernel/syscall_manager.cpp:46-51 | exit makes the current process one of those, if another process is ready |
| KernelRuns.WaitsInLine | kernel/process.cpp:252-293 | every scheduling moves a waiting process up by exactly one, whatever forks, exits and stores interleave |
| KernelRuns.BoundedWait | kernel/process.cpp:252-293 | the process at position k of the ready list runs exactly after the scheduling number k + 1, at most 31 |
| KernelRuns.QueueIsShort | kernel/process.cpp:26-41 | at most 31 processes wait |
| KernelRuns.FailedForkRuns | kernel/syscall_manager.cpp:69-73 | after a fork that the pages doom to fail half way, the child is DEAD and still becomes the RUNNING process when its turn comes |
| KernelRuns.ForkEndsAs | kernel/syscall_manager.cpp:58-76 | a fork step ends whole exactly when the pool holds the parent's pages and one more, and half way exactly when ForkFails; then its child is DEAD and queued |
| ForkFailure.FirstPagesCost | kernel/process.cpp:351-390 | the pages and tables that a stack page and n consecutive pages need, in closed form |
| ForkFailure.FirstForkFails | kernel/process.cpp:374-378 | a process of 16384 pages, the only one after boot, fails to fork half way |
| ForkFailure.BootThenFork | kernel/init.cpp:37-80 | boot with such a program, from a file that fits into the kernel image, and one fork: -1, and a DEAD child in the ready list |
| ProcessManagers.ProcessManager.constructor | kernel/process.cpp:14-24 | no process, empty lists, all slots free |
| ProcessManagers.ProcessManager.AllocatePcb | kernel/process.cpp:26-41 | the first free slot, marked and cleared, with its number as pid, or none |
| ProcessManagers.ProcessManager.CreateProcess | kernel/process.cpp:87-147 | -1 exactly when all slots are taken; traps exactly when the pool is too small; otherwise a READY process at the end of both lists over a new space, with sp 0xfffffffffffff000, all other registers, ticks and parent 0, and the file's e_entry as sepc |
| ProcessManagers.ProcessManager.SetL2PageTable | kernel/process.cpp:244-250 | mode and address space identifier stay, and the page number becomes that of the new root |
| ProcessManagers.ProcessManager.Schedule | kernel/process.cpp:252-293 | in place, exactly the scheduling step of the state machine, with the ticks that the source counts; no saved register, frame, priority or parent changes |
| ProcessManagers.ProcessManager.FindProcessByPid | kernel/process.cpp:295-311 | a listed process with that pid, or none exactly when no listed process has it |
| ProcessManagers.ProcessManager.CopyProcess | kernel/process.cpp:313-395 | the child resumes where the parent called, with its registers, priority and ticks, a0 = 0 and sp from sscratch; the copy of the user memory with the exact conditions for success, for failure and for the trap |
| ProcessManagers.ProcessManager.DoFork | kernel/syscall_manager.cpp:58-76 | makes a step of the state machine; returns a pid exactly when a slot is free and the pool holds one page for every root, table and frame of the parent and one more, -1 exactly when no slot is free or the pool runs out at a frame, and traps otherwise; with four pages left it returns -1 and queues a DEAD child |
| ProcessManagers.ProcessManager.DoExit | kernel/syscall_manager.cpp:46-51 | makes the exit step |
| ProcessManagers.ProcessManager.DoTest | kernel/syscall_manager.cpp:53-56 | makes the scheduling step |
| ProcessManagers.ProcessManager.HandleSyscall | kernel/syscall_manager.cpp:7-38 | every handled call makes its step and keeps the invariant, fork with the same exact conditions for its results; unknown numbers stop the kernel |
| ForkSteps.ForkReady | kernel/syscall_manager.cpp:58-68 | after create_process the copy can start, and its cost is that of the parent's pages and one more in all |
| ForkSteps.BootIsGood | kernel/init.cpp:55-79 | the state that kernel_entry leaves is good and clean, with the boot table untouched |
| ProcessManagers.KernelInit | kernel/init.cpp:20-33 | tables mapping CLINT, UART and DRAM one to one, exactly 69 pages in use, no process |
| ProcessManagers.KernelEntry | kernel/init.cpp:37-80 | boot traps exactly when the pool is too small for the program, and otherwise leaves process 0 running in a good and clean state; its memory is the program and the stack page and nothing else, its sepc is the number in bytes 24..31 of the file, its sp the end of the stack page, where loads and stores below it succeed if no segment covers that page; the boot table maps CLINT, UART and DRAM one to one |
| Numerals.NumeralValue | kernel/utils.cpp:48-82 | the text evaluates back to the number, in every base from 2 to 26 |
| Numerals.DigitTable | kernel/utils.cpp:59-65 | the digits are 0 to 9 and A to P, in this order |
| Numerals.NoLeadingZero | kernel/utils.cpp:68-73 | the text is not empty, and starts with 0 exactly for zero |
| Numerals.NumeralFits | kernel/utils.cpp:121-122 | at most 64 digits for 64-bit numbers and 32 for 32-bit ones, so the buffers of printf suffice |
| Numerals.NumeralsDiffer | kernel/utils.cpp:48-82 | different numbers have different texts |
| Numerals.Litos | kernel/utils.cpp:48-82 | the buffer holds the NUL-terminated numeral of at most 64 digits; a base outside 2..26 leaves it alone |
| Numerals.Itos | kernel/utils.cpp:11-46 | the same for 32-bit numbers and 32 digits |
| Numerals.ReverseInPlace | kernel/utils.cpp:75-79 | the digits end up in reverse order, everything behind them untouched |
| Printf.AddToBuffer | kernel/utils.cpp:101-114 | the index stays below 64, and a full buffer is sent as a C string |
| Printf.AddNumeral | kernel/utils.cpp:181-185 | the characters up to the NUL go through the buffer one by one |
| Printf.ChunksAddUp | kernel/utils.cpp:131-220 | for NUL-free text the chunks sent concatenate to the rendering of the format, wherever the 64-character boundaries fall |
| Printf.ChunkSize | kernel/utils.cpp:101-114 | characters wait until there are 64, which are then sent as far as the first NUL |
| Printf.SaysNumber | kernel/utils.cpp:167-213 | %d and %ld print a sign and the decimal digits that evaluate to the number, %x and %lx the hexadecimal digits of its 32 or 64 bits, all without leading zero, and the rest of the format follows |
| Printf.SaysText | kernel/utils.cpp:131-166 | %c prints the low byte of its int, %s its string, %% a percent sign, other characters themselves, unknown directives nothing, and the rest of the format follows |
| Printf.OneDirective | kernel/utils.cpp:116-223 | the text of each format of one directive |
| Printf.SendsTheRendering | kernel/utils.cpp:116-223 | printf sends the rendering exactly when no %c of the format takes an int that converts to NUL |
| Printf.NulLosesText | kernel/utils.cpp:101-114 | "a%cb" with any multiple of 256 renders three characters and sends one |
| Printf.NulOnlyFromChars | kernel/utils.cpp:145-212 | the rendering has a NUL exactly when some %c takes an int that converts to NUL, 0 or another multiple of 256 |
| Printf.Print | kernel/utils.cpp:116-223 | the UART receives the chunks of the format, which are its rendering exactly when no %c takes a NUL; a format of one directive sends its number, string or character; no write leaves the buffers |

## Left out

- Trap entry and exit, `switch_to`, `start_process` and the forwarding between machine and supervisor mode: a switch is "current becomes next"; registers are data of the control block, and nothing is claimed about what a program finds in them.
- Preemption inside a system call, and the unhandled causes in `kernel/interrupt.cpp`, which stop the kernel; a faulting user store stops it too and is no step of a run.
- TLB, cache and A/D bit effects, UART, CLINT and timer hardware, and CSR accessors; `satp`, `sscratch`, `sstatus` and `sepc` are plain words.
- The bytes of the page bitmap are an array of their own, not part of the modelled DRAM, and kernel data outside the pool is not modelled as memory.
- ElfLoader.LoadElf: the program file is a constant byte sequence outside the pool that holds its headers and segment bytes. The first segment that loads must start on a page boundary, because otherwise the source maps a page with a variable it has not initialised; segments must lie in the user half, because others would be written into the tables that all processes share. The source checks none of this.
- ProcessCreation.BuildSpace: takes the files that `ElfLoader.LoadElf` takes, for the same reasons.
- ProcessManagers.ProcessManager.CreateProcess: takes the files that `ElfLoader.LoadElf` takes, for the same reasons.
- ProcessManagers.KernelEntry: takes the files that `ElfLoader.LoadElf` takes, for the same reasons, and at most `KERNEL_SIZE` bytes of them (`include/constant.h:7`), because the program is linked into the kernel image; a larger image would reach into the page pool.
- User stores that are not 64 bits wide and aligned, and instruction fetches as steps of a run.
- The fields `name`, `return_value` and `stack` of a control block; the frame that `stack` points to is the field `frame`.
- `release_pcb` and `release_physical_pages`, which nothing calls; `AddressPools.AddressPool.Release` is the latter without its wrapper.
- bss beyond the last file page (p_memsz greater than p_filesz), lazy paging and reclaiming memory: the source does not have them.
- Debug output in `connect_virtual_physical_address`, boot messages, `ceil` on negative numbers, `lib/stdio.cpp` (the same algorithms over a system call), user programs and build files.
- Printf.Print: arguments match the format and the format does not end in `%l`, after which the source reads past its end; negating the least int or long is taken to give its magnitude as an unsigned number.
- ProcessManagers.ProcessManager.HandleSyscall: `write` is taken to change nothing, because what it prints is not kernel state.
