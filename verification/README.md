# A verified model of MOS

MOS is a small MIPS kernel with a user-level file server, copy-on-write fork, pipes and a program loader.
This project models its hard parts in Dafny, in the form the C code has them, and proves what they are for.
`dafny verify dfyconfig.toml` covers all of it (Dafny 4.11).

Each part has a value-level model (state, operations, invariants and the theorems about whole runs) and, for
code that works in place, a class or a method over arrays whose `ensures` equate the new state with the
operation of the value-level model.

| Files | What they model |
|---|---|
| `Mmu`, `Memory`, `MemoryInv`, `MemoryOps`, `EnvMemory`, `Tlb`, `MemoryRuns`, `MemoryTheorems`, `MemoryWords`, `MemoryWitness`, `Pmap`, `Layout` | Frames with reference counts and a free list, two-level page tables with the shared kernel words and the UVPT self-map, a TLB that caches them, ASIDs that are reused, creation and destruction of address spaces, and what the words of a page are |
| `Common`, `Queue`, `Bits` | Error codes and shared notions, the intrusive linked lists of `include/queue.h`, and bitmaps in words |
| `Sched`, `SchedTheorems`, `SchedRuns`, `Kernel`, `Ipc`, `Syscalls` | Round-robin scheduling with priorities as slices, env status, IPC, env ids; `Kernel.EnvTable` joins the linked lists, the env table and memory, `Ipc` follows a message with its page, and `Syscalls` adds start-up and the memory calls by env id |
| `Cow`, `CowProofs`, `CowMemory` | Copy-on-write fork and its fault handler, one system call at a time, against a machine that copies; then both on the page tables of `Memory` |
| `Pipe`, `PipeRing` | Who holds the ends of a pipe while close, dup, fork and exit interleave, and the ring buffer byte by byte |
| `Fs`, `FsTheorems`, `FsData`, `FsServer` | Block maps, bitmap, cache, directory lookup and paths of the file server |
| `Fsformat`, `FsformatDir`, `FsformatTree`, `FsformatNames`, `FsTool`, `FsMount` | The image writer, and that the file server mounts what it wrote and finds every path |
| `Elf`, `ElfTheorems` | Loading one program segment |
| `Print` | Printing a number |
| `InitStack` | The argument page of a spawned program |

## How the state is modelled

- A frame is an array of 1024 page table words; directories and tables are frames like any other, so the
  self-map is a word that names its own directory. The TLB is a map from (ASID, page) to an entry; a refill
  adds one entry and evicts any set of others. `Role` says what a frame is used for; no operation reads it.
- `pp_ref` is a `u_short`: the increment wraps at 65536. Frames boot keeps in use have fixed counts.
- Words of flags are sets of the bits that are 1.
- A pointer into `pages[]` or `envs[]` is an index, and the address of a link field is a value that says
  which link it is, so `*l = p` is a store through it.
- On one CPU a timer interrupt may fall between any two system calls, and between any two reads of a shared
  counter; `env_runs` goes up at each dispatch.
- Memory for the block cache, answers of a page mapper, and results of system calls that the modelled function
  only passes on are parameters, so every theorem holds for all of them.

## Where the code does less than it says

Each of these is proved; where a property fails, the exact condition under which the code meets it is part of the result.

- `page_insert` at `pp_ref` 65535 wraps the count to 0 (`MemoryOps.InsertExact`, `MemoryWitness.WrapReached`).
- `sys_mem_alloc` loses its page when `page_insert` fails (`MemoryTheorems.MemAllocSound`).
- A read through UVPT of a missing table creates that table (`MemoryTheorems.TableAllocSound`). For UVPT pages 512
  to 1023 it fills a directory word that env_free never visits: the frame stays counted for good and its translation
  outlives the ASID (`MemoryTheorems.RefillExact`, `MemoryTheorems.StrayOutlives`, `MemoryTheorems.StaleAsid`).
- TAILQ macros do not check membership (`Queue.InsertTailExact`, `Queue.RemoveStrayExact`), and
  `sys_set_env_status` does not look at the old status (`SchedTheorems.StatusExact`).
- A process that blocks and wakes itself is runnable and current but not the head of the list
  (`SchedTheorems.HeadExact`, `SchedTheorems.HeadLostReached`).
- `sys_ipc_try_send` wakes the receiver before it can fail over the page (`Kernel.EnvTable.SysIpcTrySend`).
- `pipe_read` can return 0 with data waiting, if the pipe was empty and open when it was called and the writer adds
  a byte and closes between the empty test and the closed test (`PipeRing.ZeroReturnExact`); the empty test fails
  once the positions straddle 2^32 (`PipeRing.EmptyExact`).
- `map_block` keeps a cached block's old contents, so a recycled block can become an indirect block with stale
  entries (`FsTheorems.CreateExact`, `FsTheorems.StaleDiskReached`);
  truncation forgets entries past `f_size` (`FsTheorems.TruncateLeakExact`, `FsTheorems.TruncateLeakReached`).
- The image writer's bitmap is wrong in its last bits unless the block count is a multiple of 8
  (`FsTool.BitmapExact`).
- `elf_load_seg` maps the first page twice when a small unaligned segment has a zero tail
  (`ElfTheorems.MapsOnceExact`, `ElfTheorems.HeadLost`).
- `init_stack` ends the pointer array with an address, not a null pointer (`InitStack.InitStack`).

## Model

| member | source | states |
|---|---|---|
| `MemoryTheorems.RunSound` | kern/pmap.c:145-409 | Main result. Through every run of page system calls, TLB refills of any page passive_alloc accepts, env creations and exits, page accounting and TLB coherence hold: counts match references but for the stray frames of MemoryTheorems.RefillExact, free pages are distinct and unused, every cached user translation is current |
| `MemoryTheorems.RefCountExact` | kern/pmap.c:282-374 | For a frame boot did not keep, pp_ref is the number of user entries naming it in live directories, plus the directory words naming it, plus one if it is a live page directory, exactly if it is no stray frame; a stray frame counts 1 and nothing names it |
| `MemoryTheorems.FreePagesUnused` | kern/pmap.c:145-179 | Pages on page_free_list have count 0 and no entry, directory word or directory names them |
| `MemoryTheorems.TlbExact` | kern/pmap.c:399-409 | A TLB entry for a user page equals the current entry of the one live env that has its ASID |
| `MemoryTheorems.LifeConserves` | kern/env.c:302-354 | Creating an env, running any successful system calls and faults in it, and destroying it restores every count, the free pages as a set, the ASIDs and every other space, up to the stray frames its refills took, and leaves no user TLB entry under the ASID |
| `MemoryTheorems.LifeExact` | kern/env.c:302-518 | The counts and the free pages are all restored exactly when no refill in the run took a stray frame |
| `MemoryTheorems.EnvFreeCounts` | kern/env.c:474-518 | env_free takes from each frame, be it a page, a page table or the directory, exactly the references of that env; the frame is freed exactly when none is left (and it was not already lost); stray frames keep their count |
| `MemoryRuns.EnvFreeSound` | kern/env.c:474-513 | env_free keeps accounting and coherence, touches no other space, loses no frame, returns the ASID with no user translation cached under it |
| `MemoryRuns.ClearSpaceSound` | kern/env.c:483-507 | The double loop of env_free empties the user half of the directory and gives every table back |
| `MemoryRuns.FreeSlotSound` | kern/env.c:485-506 | One directory slot: its pages are unmapped, its table freed, nothing else changes |
| `MemoryTheorems.MemAllocSound` | kern/syscall_all.c:149-171 | sys_mem_alloc succeeds iff there is a frame and a table or a second frame; it loses its frame exactly when page_insert then finds no frame for the table |
| `MemoryTheorems.MemMapSound` | kern/syscall_all.c:187-215 | sys_mem_map succeeds iff the source page is mapped and the table is there or a frame is free; on success the target names the same frame with the new permission; nothing leaks either way |
| `MemoryTheorems.InsertLeaks` | kern/pmap.c:282-329 | A page held by the caller stops being at risk exactly when page_insert succeeds |
| `MemoryWords.NewPageZero` | kern/pmap.c:145-165 | After a successful sys_mem_alloc, and after a refill that gives a user page, every word of the page now mapped there is zero, whatever its frame held before |
| `MemoryWords.MappedWordsKept` | kern/syscall_all.c:149-245 | No system call, TLB refill, env creation or exit changes a word of a frame that is mapped as a user page |
| `MemoryWords.NewTableZero` | kern/pmap.c:197-268 | A page table that is created reads zero in every word |
| `MemoryWords.WriteSound` | kern/pmap.c:197-268 | A program that writes any words to its pages disturbs neither the accounting nor a translation |
| `MemoryOps.InsertExact` | kern/pmap.c:285-328 | page_insert keeps the books exactly when the u_short count can grow, or the same page is already there, or there is no memory for the table: at 65535 the increment wraps to 0 |
| `MemoryOps.InsertEffect` | kern/pmap.c:282-329 | page_insert is a map update: on success that page names the new frame with perm and PTE_V, on -E_NO_MEM nothing was mapped there; no other user page of any env moves |
| `MemoryOps.InsertCounts` | kern/pmap.c:285-328 | The replaced page loses one reference, the new one gains one, the frame that becomes the page table gains one, re-inserting keeps the count, failing changes none |
| `MemoryOps.SelfMap` | kern/env.c:276-279 | Through UVPT a walk reads the page directory: entry i there is directory word i |
| `MemoryOps.UnmapEffect` | kern/pmap.c:378-397 | page_remove clears that translation and no other, in any space |
| `MemoryOps.AddTableEffect` | kern/pmap.c:197-268 | Creating a table adds a directory word and changes no translation |
| `MemoryTheorems.PassiveAllocSound` | kern/tlbex.c:4-35 | passive_alloc keeps accounting and coherence for every page it accepts, the whole UVPT window included, and afterwards the page is mapped |
| `MemoryTheorems.TableAllocSound` | kern/tlbex.c:33-34 | Not in the comments: a read through UVPT of a directory word that is empty stores the fresh page there; below PDX(UTOP) it becomes that page table, above PDX(UVPT) a stray frame |
| `MemoryTheorems.RefillSound` | kern/tlbex.c:40-58 | A refill of any page, with whatever entry it evicts, keeps accounting and coherence, and takes a stray frame only for a UVPT page above the window |
| `Layout.FillableExact` | kern/tlbex.c:8-31 | The pages served are those of exactly the addresses that none of the five tests of passive_alloc stops |
| `MemoryTheorems.RefillServes` | kern/tlbex.c:40-58 | Unless passive_alloc panics the faulting page is mapped afterwards and the TLB holds its current entry; a page that was mapped keeps its entry |
| `MemoryTheorems.RefillExact` | kern/tlbex.c:4-35 | passive_alloc refuses no page in [UVPT, ULIM): a refill keeps all counts exact if and only if the page is mapped, or no frame is free, or it is not a UVPT page above the 511th |
| `MemoryTheorems.RunExact` | kern/tlbex.c:4-58 | Over any run the counts stay exact exactly when no refill allocates for such a page |
| `MemoryTheorems.StrayOutlives` | kern/env.c:483-513 | The failing case to its end: env_free walks words below PDX(UTOP) only, so afterwards the frame is counted, named by nothing and not free, and its TLB entry survives under the freed ASID |
| `MemoryTheorems.StaleAsid` | kern/env.c:508-513 | And the entry is still cached when the ASID is handed out again: the next env has a translation its page directory does not contain |
| `MemoryTheorems.BootSound` | kern/pmap.c:103-130 | The state page_init leaves satisfies both invariants, with the kernel template among the frames it keeps |
| `MemoryWitness.StrayReached` | kern/tlbex.c:4-35 | A legal run from boot after which one read of UVPT page 600 breaks the counts |
| `MemoryWitness.AllocLeakReached` | kern/syscall_all.c:149-171 | A legal run from boot after which sys_mem_alloc fails and loses the last frame |
| `MemoryWitness.WrapReached` | kern/pmap.c:285-328 | A legal run from boot in which one process maps one page 65535 times and the next sys_mem_map sets its count to 0 |
| `MemoryTheorems.StepOthers` | kern/syscall_all.c:149-245 | Each operation moves pages in one address space only |
| `Layout.IllegalExact` | kern/syscall_all.c:118-121 | A page is illegal exactly if its addresses are below UTEMP or from UTOP on |
| `Layout.Constants` | include/mmu.h:112-125 | The page numbers used throughout are those of the addresses of the layout |
| `EnvMemory.EnvAllocEffect` | kern/env.c:250-281 | A new space shows the kernel template and its self-map, and nothing below PDX(UTOP) |
| `EnvMemory.DropTableEffect` | kern/env.c:500-506 | Dropping an emptied table removes its directory word and nothing else |
| `Tlb.CoherentStep` | kern/tlb_asm.S:3-32 | Coherence is kept by any step that flushes what it changes: translations still cached, or shared by all spaces, must be the same |
| `Tlb.InsertSound` | kern/pmap.c:282-329 | page_insert flushes before it changes the entry, so the TLB stays current |
| `Tlb.DropEnvSound` | kern/env.c:508-513 | Why a freed ASID may be reused: what is still cached under it is shared by all address spaces |
| `Pmap.Machine.PageInit` | kern/pmap.c:103-130 | Page_init in place: frames below the boundary keep count 1, the rest are on the free list once each; the result is sound |
| `Pmap.Machine.PageAllocate` | kern/pmap.c:145-165 | Takes the head of page_free_list and zeroes it, in place |
| `Pmap.Machine.PageFree` | kern/pmap.c:173-179 | Puts an uncounted page at the head of the list, in place |
| `Pmap.Machine.PageDecref` | kern/pmap.c:365-374 | Decrements, and frees at zero, in place |
| `Pmap.Machine.TlbInvalidate` | kern/pmap.c:406-409 | Removes exactly the entry for this ASID and page |
| `Pmap.Machine.PgdirWalk` | kern/pmap.c:197-268 | Returns the address of the word that translates the page; 0, no table, or -E_NO_MEM, each exactly when it should |
| `Pmap.Machine.PageLookup` | kern/pmap.c:336-359 | Finds the page iff the abstract map has it, and changes nothing |
| `Pmap.Machine.PageRemove` | kern/pmap.c:378-397 | In place, equal to the abstract unmapping |
| `Pmap.Machine.PageInsert` | kern/pmap.c:282-329 | In place, equal to the abstract insertion, with its return code |
| `Pmap.Machine.DoTlbRefill` | kern/tlbex.c:40-58 | The loop runs passive_alloc at most once, and the entry written is the current translation |
| `Pmap.Machine.AsidAlloc` | kern/env.c:33-48 | Gives the lowest free ASID and sets its bit, or finds all 64 in use |
| `Pmap.Machine.AsidFree` | kern/env.c:59-64 | Clears that bit only |
| `Pmap.Machine.EnvSetupVm` | kern/env.c:250-281 | A fresh directory with the template words and the self-map, or -E_NO_MEM without effect |
| `Pmap.Machine.EnvAllocate` | kern/env.c:302-354 | The memory half of env_alloc: directory and unused ASID, or no effect |
| `Pmap.Machine.DoEnvFree` | kern/env.c:474-513 | The loops of env_free in place, equal to the abstract operation |
| `Queue.InsertTailKeeps` | include/queue.h:224-230 | TAILQ_INSERT_TAIL appends: every tqe_prev and tqh_last still addresses the link that points there |
| `Queue.InsertHeadKeeps` | include/queue.h:164-169 | Insertion at the head prepends, for LIST and TAILQ alike |
| `Queue.RemoveKeeps` | include/queue.h:176-181 | LIST_REMOVE and TAILQ_REMOVE take exactly that element out, wherever it is, and keep the order of the others |
| `Queue.InsertTailExact` | include/queue.h:224-230 | TAILQ_INSERT_TAIL leaves a well-formed queue exactly when the element was not queued: on a queued element no reading of the links is a queue |
| `Queue.RemoveStrayExact` | include/queue.h:250-257 | TAILQ_REMOVE of an element that is not queued is harmless exactly when its stale links still fit its former neighbours |
| `Queue.SameWalk` | include/queue.h:113-117 | The links determine the contents: two readings of the same links agree |
| `Queue.List.TailqInsertTail` | include/queue.h:224-230 | The macro over link fields in place |
| `Queue.List.TailqInsertHead` | include/queue.h:214-222 | The macro over link fields in place |
| `Queue.List.TailqRemove` | include/queue.h:250-257 | The macro over link fields in place |
| `Queue.List.ListInsertHead` | include/queue.h:164-169 | The macro over link fields in place |
| `Queue.List.ListRemove` | include/queue.h:176-181 | The macro over link fields in place |
| `Sched.RunInv` | kern/syscall_all.c:306-330 | Main result. Through every run, env_sched_list holds exactly the RUNNABLE envs, each once; a receiving env is NOT_RUNNABLE and not queued. sys_ipc_recv is called by a RUNNABLE env with another one queued |
| `Sched.ScheduleInv` | kern/sched.c:17-64 | schedule keeps that, never picks a receiving env, and leaves a runnable curenv whenever the list is not empty |
| `SchedTheorems.NoStarvation` | kern/sched.c:47-60 | Main result. An env that stays runnable is dispatched within (remaining count of curenv) + (sum of max(1, env_pri) of those ahead) + 1 if curenv is not runnable calls to schedule, whatever else arrives, blocks or exits |
| `SchedTheorems.ScheduleCloser` | kern/sched.c:47-60 | Each call to schedule dispatches the waiting env or strictly decreases that measure |
| `SchedTheorems.StepCloser` | kern/syscall_all.c:321-324 | No other step increases it: insertions are at the tail |
| `SchedRuns.SliceExact` | kern/sched.c:47-60 | Main result. Over any run in which it neither yields, blocks nor dies, an env that starts its slice keeps the CPU for exactly max(1, env_pri) ticks, and the last one hands the CPU to the next env queued, which starts its own slice |
| `SchedRuns.SwitchExact` | kern/sched.c:47-64 | schedule leaves a runnable curenv on the CPU exactly when it does not yield and ticks are left; otherwise curenv goes to the tail and the next env starts a slice of its own env_pri |
| `SchedRuns.DispatchCounts` | kern/sched.c:47-64 | Every dispatch counts in env_runs of the env put on the CPU and of no other |
| `SchedTheorems.HeadExact` | kern/syscall_all.c:306-330 | A runnable curenv stays head of the list except in exactly one case: it blocked itself by sys_set_env_status and wakes itself behind other envs |
| `SchedTheorems.HeadLostReached` | kern/syscall_all.c:306-330 | A legal run of two envs that ends there: curenv is runnable and current but behind the other |
| `SchedTheorems.StatusExact` | kern/syscall_all.c:319-328 | sys_set_env_status gives the intended list exactly when the status really changes, or a blocked env is blocked again with links that still fit |
| `SchedTheorems.IpcInOrder` | kern/syscall_all.c:384-472 | At every moment what a receiver returned is what was delivered, in order, with at most one message outstanding, which no later send overwrites before it is read |
| `SchedTheorems.IpcExactlyOnce` | user/lib/ipc.c:26-39 | Over any run, the (value, from, perm) triples a receiver returns are exactly the successful sends to it, in order, up to one not yet read |
| `SchedRuns.RecvAwaits` | kern/syscall_all.c:384-407 | The address given to sys_ipc_recv stands, and the env keeps waiting, until a send to it |
| `Ipc.PageArrives` | kern/syscall_all.c:384-472 | Main result. From a call of sys_ipc_recv, through any run, to the send that meets it: on 0 the page table entry at the address given to sys_ipc_recv names the sender's frame with perm, exactly when the source is mapped and there is memory; the message is delivered either way |
| `Ipc.ValueArrives` | kern/syscall_all.c:426-472 | A message without a page reaches the env that waits, with value, sender and permission, and no memory changes |
| `SchedTheorems.EnvidExact` | kern/env.c:126-160 | Without the permission check envid2env finds an env iff it is live and carries exactly that id, although only the index bits select the slot |
| `SchedRuns.EnvidNames` | kern/env.c:126-189 | envid2env exactly: id 0 is curenv; another id is the live env that carries it, and with checkperm only if that is curenv or a child of curenv |
| `SchedRuns.ChildResolves` | kern/syscall_all.c:261-292 | The id sys_exofork returns names the child for its creator, permission check included, through every run in which both live |
| `SchedRuns.Born` | kern/syscall_all.c:261-292 | A child carries its creator's id as parent and its priority, an id no live env has, and cannot run yet |
| `SchedRuns.BootBorn` | kern/env.c:448-469 | env_create gives an env without parent, with the priority asked for |
| `SchedRuns.SameRun` | kern/env.c:302-354 | Id, parent and priority of an env stay until it dies |
| `SchedTheorems.StaleIdStaysBad` | kern/env.c:102-111 | The id of a destroyed env never resolves again, whatever is created in its slot |
| `Kernel.EnvTable.EnvInit` | kern/env.c:201-221 | Both lists after env_init: no env queued, every env on env_free_list in index order |
| `Kernel.EnvTable.Schedule` | kern/sched.c:17-64 | schedule over the linked list, equal to the abstract step |
| `Kernel.EnvTable.EnvidToEnv` | kern/env.c:126-189 | envid2env with its permission check, equal to the abstract lookup |
| `Kernel.EnvTable.SysSetEnvStatus` | kern/syscall_all.c:306-330 | Over the linked list, keeping the list exact |
| `Kernel.EnvTable.SysIpcRecv` | kern/syscall_all.c:384-407 | Bad dstva is refused without effect; otherwise the caller blocks and another env runs |
| `Kernel.EnvTable.SysIpcTrySend` | kern/syscall_all.c:426-472 | The message reaches a receiving env whenever srcva is legal, even if the call then fails over the page: -E_INVAL exactly if srcva is unmapped, -E_NO_MEM exactly if page_insert finds no memory; on 0 that page is mapped at dstva; -E_IPC_NOT_RECV changes nothing; memory is given in every case |
| `Kernel.EnvTable.SysExofork` | kern/syscall_all.c:261-292 | Takes the head of env_free_list with a fresh id, NOT_RUNNABLE and a fresh address space; an error changes nothing |
| `Kernel.EnvTable.DoEnvFree` | kern/env.c:474-518 | Both halves of env_free on a RUNNABLE env keep all structures consistent |
| `Kernel.EnvTable.EnvDestroy` | kern/env.c:523-535 | And when curenv dies, schedule picks a runnable successor |
| `Kernel.EnvTable.EnvCreate` | kern/env.c:448-469 | env_create in place: a RUNNABLE env with a fresh address space enters at the head of the run queue |
| `Syscalls.MipsInit` | init/init.c:14-51 | From zeroed memory: memory, env table, two envs and the first timer interrupt end with table and memory consistent and the env created last running |
| `Syscalls.SysMemAlloc` | kern/syscall_all.c:149-171 | By env id: -E_INVAL for an illegal address, then -E_BAD_ENV unless the id names the caller or its child, both without effect; otherwise the abstract operation and its code, and on 0 the new page reads zero |
| `Syscalls.SysMemMap` | kern/syscall_all.c:187-215 | By env ids: -E_INVAL for an illegal address, then -E_BAD_ENV, then -E_INVAL if the source is not mapped, each without effect; otherwise the abstract operation and its code |
| `Syscalls.SysMemUnmap` | kern/syscall_all.c:228-245 | By env id: illegal addresses and ids are refused without effect, otherwise the page is unmapped in the env the id names |
| `CowProofs.CowRefinesCopy` | user/lib/fork.c:17-185 | Main result. While forks, stores, copy-on-write faults, allocations and unmaps interleave one system call at a time and envs are destroyed at any point, each env has the pages, write rights and words it would have if duppage copied private pages and shared PTE_LIBRARY pages; only the page of an unborn child that its parent has yet to remap may differ |
| `CowProofs.StepR` | user/lib/fork.c:17-118 | Every step of the lazy machine, a fork being one step per system call, is a step, or none, of the eager one |
| `CowProofs.ForkCopies` | user/lib/fork.c:132-185 | A fork nothing interrupts ends in the state its loops compute, and copies every page below USTACKTOP at once |
| `CowProofs.RemapFirstLeaks` | user/lib/fork.c:96-117 | The question duppage asks in its comment: if the parent were remapped first, its next store, on the stack, would leave parent and child sharing a frame the parent writes |
| `CowMemory.KernelForkCopies` | user/lib/fork.c:17-185 | Main result. The same for physical memory and the two-level page tables the kernel keeps: an entry is valid exactly where the env has a page in the machine whose forks copy, the words of its frame are the words of that page, and it is writable, at once or after a fault, exactly if that page is |
| `CowMemory.RunProjects` | kern/syscall_all.c:149-245 | Both machines step together through any run of the kernel and of the programs that store to their pages: the books and the TLB stay sound, and the frames and ids the kernel supplies are as fresh, and as zeroed, as copy-on-write needs |
| `CowProofs.HandledWritable` | user/lib/fork.c:17-54 | The fault handler ends with the page private, writable and unchanged, and moves no other page |
| `CowProofs.HandledBits` | user/lib/fork.c:17-54 | It removes PTE_COW, adds PTE_D and keeps every other permission bit |
| `CowProofs.StoreAlone` | user/lib/fork.c:80-118 | A frame mapped PTE_D without PTE_LIBRARY has no other mapping outside the UCOW window, except in a child whose parent is halfway through duppage |
| `Cow.SameView` | user/lib/fork.c:17-185 | What the relation means for a reader: same pages, same write rights, same words on every page that is not halfway through duppage |
| `Cow.Machine.DoDuppage` | user/lib/fork.c:80-118 | duppage in place: private writable pages become PTE_COW on both sides, others are shared as they are |
| `Cow.DupBits` | user/lib/fork.c:80-118 | duppage moves a private writable page from PTE_D to PTE_COW and keeps every other bit |
| `Cow.Machine.Fork` | user/lib/fork.c:151-170 | The two-level walk in place covers exactly the mapped pages below USTACKTOP |
| `Cow.Machine.CowEntry` | user/lib/fork.c:17-54 | cow_entry in place: allocate at UCOW, copy, map over, unmap |
| `Pipe.PipeNeverLooksClosed` | user/lib/pipe.c:101-129 | Main result. No interleaving of close, dup, fork and exit makes a pipe look closed while its other end is open, and pageref(pipe) >= pageref(reader) + pageref(writer) throughout |
| `Pipe.PipeRefBounds` | user/lib/fd.c:134-184 | That bound in every reachable state: close unmaps the Fd first, dup maps the data first |
| `Pipe.NoFalseClose` | user/lib/pipe.c:101-129 | When _pipe_is_closed answers 1 to a holder of one end, no env maps the other end; the env_runs retry makes the two counts one snapshot |
| `Pipe.AnswerExact` | user/lib/pipe.c:101-129 | With no close or dup in flight the answer is exact both ways |
| `Pipe.StepInv` | user/lib/pipe.c:259-270 | Every step of every holder keeps the order invariant |
| `Pipe.DupEnds` | user/lib/fd.c:134-184 | dup ends with the new slot open at the end the old one is open at, or closed if a mapping failed; the old slot is what it was |
| `Pipe.CloseEnds` | user/lib/pipe.c:259-270 | close ends with both pages of the slot unmapped, whatever others do meanwhile |
| `Pipe.ForkSlots` | user/lib/fork.c:132-185 | fork gives the child every slot of the parent, open at the same end |
| `Pipe.OthersKeep` | user/lib/fd.c:134-184 | No env changes the slots of another, but fork fills those of the child |
| `Pipe.AskStep` | user/lib/pipe.c:101-129 | _pipe_is_closed ends only with an answer, starts over when env_runs has moved, and changes no slot |
| `PipeRing.PipeFifo` | user/lib/pipe.c:154-218 | Main result. For any interleaving of one reader and one writer at byte steps, the bytes read are a prefix of those written, the ring holds exactly the rest, and 0 <= p_wpos - p_rpos <= 32 (fewer than 2^32 bytes) |
| `PipeRing.WriteReturns` | user/lib/pipe.c:192-218 | Main result. pipe_write returns only when every byte of the source is in the pipe, in order, or the read end is closed |
| `PipeRing.ReadReturns` | user/lib/pipe.c:154-178 | pipe_read returns with 1 to n bytes, or with none and the write end closed |
| `PipeRing.FullExact` | user/lib/pipe.c:136-139 | The full test is right at every count of bytes, across the wrap of p_wpos |
| `PipeRing.EmptyExact` | user/lib/pipe.c:131-134 | The empty test is right exactly while p_rpos and p_wpos have wrapped equally often |
| `PipeRing.EmptyWrapReached` | user/lib/pipe.c:131-134 | A run from a fresh pipe that ends with a byte waiting and the empty test true |
| `PipeRing.TakeHolds` | user/lib/pipe.c:165-176 | Taking a byte delivers the oldest one and keeps the ring |
| `PipeRing.AddHolds` | user/lib/pipe.c:203-214 | Adding a byte keeps the ring |
| `PipeRing.ZeroReturnExact` | user/lib/pipe.c:158-172 | Whatever the writer does meanwhile, a call of pipe_read that returns 0 returns it with all bytes read, if and only if the write end was closed or a byte was waiting when the call began |
| `PipeRing.BetweenExact` | user/lib/pipe.c:158-172 | Between the empty test and the answer of the closed test of an empty pipe, the data stays drained exactly when the writer adds no byte |
| `PipeRing.Pipe.ReadAvailable` | user/lib/pipe.c:165-176 | The loop of pipe_read hands over the oldest bytes, stopping only at n or an empty ring |
| `PipeRing.Pipe.WriteAvailable` | user/lib/pipe.c:203-214 | The loop of pipe_write adds a prefix of the source, stopping only at its end or a full ring |
| `FsTheorems.RunOwned` | fs/fs.c:405-518 | Main result. Through any run of mapping, reading, clearing, resizing and writing on all files, also out of disk or memory, every block number held anywhere names a distinct block in use at or past the first data block |
| `FsTheorems.GrowThenTruncate` | fs/fs.c:781-833 | From an empty file, any mappings within its size and then size 0 restore every bitmap bit and zero every slot, f_indirect included; with size already 0 nothing is truncated, so its block 0 would stay |
| `FsTheorems.TruncateExact` | fs/fs.c:781-814 | file_truncate empties and frees exactly the blocks from the kept count to the old span, and the indirect block when at most the direct slots stay; every other slot and bit is untouched |
| `FsTheorems.SizeExact` | fs/fs.c:781-833 | file_set_size by byte positions: the size is recorded, growing changes no block, shrinking keeps the blocks up to the one the new size falls in and drops the later ones, other files stay |
| `FsData.DataKept` | fs/fs.c:405-518 | Mapping, clearing or resizing any file, or writing another block, changes no word of a data block in use |
| `FsTheorems.TruncateLeakExact` | fs/fs.c:781-814 | Truncation leaks no block exactly when the dropped indirect block holds nothing past the span of f_size |
| `FsTheorems.TruncateLeakReached` | fs/fs.c:781-833 | A legal run from a fresh disk: block 10 is mapped past the size, size 1, size 0, and a block is lost |
| `FsTheorems.MapExact` | fs/fs.c:466-498 | file_map_block returns the block the slot then holds, the old one if there was one; no other data slot changes, none at all on error; -E_INVAL iff the block number is out of range |
| `Fs.MapOwned` | fs/fs.c:466-498 | Mapping keeps ownership, provided a block that becomes an indirect block has no stale words in the cache |
| `Fs.WalkOwned` | fs/fs.c:405-447 | Likewise file_block_walk; on an error nothing changed |
| `FsTheorems.CreateExact` | fs/fs.c:148-161 | Creating an indirect block keeps ownership exactly when the block is clean: map_block keeps the contents of a block that is still cached |
| `FsTheorems.StaleDiskBreaks` | fs/fs.c:148-161 | On the disk of StaleDiskReached, mapping block 10 of the empty file hands out a free block as owned |
| `FsTheorems.StaleDiskReached` | fs/fs.c:148-161 | That disk is what mapping, writing and truncating block 0 of a file on a fresh disk leave |
| `Fs.ClearEffect` | fs/fs.c:503-518 | file_clear_block empties that slot and frees that block only |
| `FsServer.Server.BlockIsFree` | fs/fs.c:193-202 | The bit test, over words in place |
| `FsServer.Server.FreeBlock` | fs/fs.c:206-220 | Sets that bit; block 0 and blocks past the end are ignored |
| `FsServer.Server.AllocBlockNum` | fs/fs.c:228-247 | Claims the first free block from 3 on, or -E_NO_DISK without effect |
| `FsServer.Server.AllocBlock` | fs/fs.c:251-271 | Also maps it; when that fails the bitmap is as before |
| `FsServer.Server.FileBlockWalk` | fs/fs.c:405-447 | In place, returning the pointer to the slot |
| `FsServer.Server.FileMapBlock` | fs/fs.c:466-498 | In place, equal to the abstract mapping |
| `FsServer.Server.FileClearBlock` | fs/fs.c:503-518 | In place, equal to the abstract clearing |
| `FsServer.Server.FileTruncate` | fs/fs.c:781-814 | The loops in place, equal to the abstract truncation |
| `FsServer.Server.FileSetSize` | fs/fs.c:818-833 | In place, without the flush of the directory |
| `FsServer.Server.DirLookup` | fs/fs.c:563-601 | Returns a struct File of that name in the directory, -E_NOT_FOUND only if there is none, and changes nothing but the cache |
| `FsServer.Server.WalkPath` | fs/fs.c:650-729 | walk_path over the characters of the path, name by name, with -E_BAD_PATH for a long name and -E_NOT_FOUND for a missing one or a file on the way |
| `FsServer.Server.ReadBitmap` | fs/fs.c:313-338 | The assertions of read_bitmap hold exactly if the reserved blocks are marked in use |
| `FsformatTree.ImageSound` | tools/fsformat.c:117-394 | Main result. For any directory trees with storable, distinct names that fit: every tree is found in the root and reads back exactly; every block number names its own block, every block in use is named, and bit i is set iff nextbno <= i < NBLOCK |
| `FsformatTree.TreeWritten` | tools/fsformat.c:361-394 | A tree written under any directory is found there and reads back, and everything written before is still there |
| `FsformatTree.TreeAbsent` | tools/fsformat.c:361-394 | No other name appears in any existing directory |
| `FsformatTree.BlocksWritten` | tools/fsformat.c:344-350 | The contents of a file read back byte for byte through direct and indirect slots |
| `FsformatTree.LookupFinds` | fs/fs.c:563-601 | What dir_lookup returns for a written name is the root of that tree |
| `FsformatTree.LookupSucceeds` | fs/fs.c:563-601 | And it finds one, without a hole in the directory |
| `FsMount.BuildAndOpen` | fs/fs.c:669-735 | Main result. The tool builds a disk from any trees, the server mounts what it left, and opening any path returns the root of exactly the tree there, at every depth, or the error that fits |
| `FsMount.PathSound` | fs/fs.c:563-729 | On the image of any trees, following any path block by block leads to the root of the tree at that path, and fails with the right code exactly if there is none |
| `FsformatNames.AllClosed` | tools/fsformat.c:361-394 | The directories written hold their names and no other, at every depth |
| `FsMount.NamesOfJoin` | fs/fs.c:650-729 | Every list of names without slashes is the list of names of a path |
| `Fsformat.AddBlockEffect` | tools/fsformat.c:225-255 | A new block is linked at exactly its index, with an indirect block when needed; no block is linked twice |
| `FsformatDir.AddTidy` | tools/fsformat.c:270-320 | create_file and naming the entry keep the image well formed and everything in it |
| `FsformatDir.AddFound` | tools/fsformat.c:270-320 | The new entry is the one of its name in the directory |
| `FsTool.BitmapExact` | tools/fsformat.c:157-162 | The bitmap is right for all blocks exactly when NBLOCK is a multiple of 8 or no block is left: memset clears whole bytes |
| `FsTool.WordsBit` | fs/fs.c:198-199 | The bit block_is_free tests in words is the bit at that place in the bytes |
| `FsTool.Formatter.InitBitmap` | tools/fsformat.c:146-162 | The two memsets in place leave bit i set iff i < NBLOCK rounded down to 8 |
| `FsTool.Formatter.FlushBitmap` | tools/fsformat.c:179-187 | Clears exactly the bits below nextbno; read as words it is the bitmap of the image |
| `FsTool.Formatter.NextBlock` | tools/fsformat.c:172-176 | In place |
| `FsTool.Formatter.SaveBlockLink` | tools/fsformat.c:225-246 | In place, with the assertion on the block count |
| `FsTool.Formatter.MakeLinkBlock` | tools/fsformat.c:249-255 | In place |
| `FsTool.Formatter.CreateFile` | tools/fsformat.c:270-320 | The search loops in place find the first unused struct File, or add a block |
| `FsTool.Formatter.WriteFile` | tools/fsformat.c:323-352 | In place, loop and all |
| `FsTool.Formatter.WriteTree` | tools/fsformat.c:361-394 | In place, recursive over the directory |
| `FsTool.Formatter.Build` | tools/fsformat.c:396-434 | From init_disk to flush_bitmap: what is left is a disk the file server can mount |
| `ElfTheorems.LoadEffect` | lib/elfloader.c:27-73 | Main result. When the segment fits, its pages read the file bytes and then zeros, can be read, and can be written exactly if the segment has PF_W; no other page changes |
| `ElfTheorems.MapsOnceExact` | lib/elfloader.c:27-73 | Each covered page is mapped exactly once iff va is page aligned, or filesz >= BY2PG - offset, or memsz <= filesz |
| `ElfTheorems.HeadLost` | lib/elfloader.c:57-71 | In every other case step 2 maps the first page again, and all the file put there reads zero |
| `Elf.SegmentRights` | lib/elfloader.c:32-36 | Whichever calls succeed, the pages they map are valid, and writable exactly if the segment has PF_W |
| `Elf.Loader.ElfLoadSeg` | lib/elfloader.c:27-73 | The loops make exactly those calls of map_page in order, up to the first that fails, and return its code; every page mapped has the rights of the segment |
| `Elf.Loader.MapPage` | kern/env.c:369-395 | The mapper: a fresh zeroed page with the bytes at the offset replaces what was mapped |
| `Print.RoundTrip` | lib/print.c:265-357 | Main result. Sign and value can be parsed back from what is printed, for every base from 2 to 36, width, padding, alignment and case |
| `Print.FormattedLength` | lib/print.c:303-308 | The length is max(width, digits plus sign) |
| `Print.FormattedLayout` | lib/print.c:310-354 | A left-adjusted number comes first with only blanks after it, zeros stand between sign and digits, other padding before the sign |
| `Print.DigitsCase` | lib/print.c:283-299 | Digits above 9 are letters of the case asked for |
| `Print.FirstDigit` | lib/print.c:283-299 | No superfluous leading zero in the digits |
| `Print.BufferFits` | lib/print.c:278-279 | At most 32 digits for a 32-bit number, so length + 70 bytes are never overrun |
| `Print.DigitsFit` | lib/print.c:283-299 | n digits suffice iff u < base^n |
| `Print.PrintNum` | lib/print.c:265-357 | The string handed to the callback is the formatted number: sign before zero padding, blanks right of a left-adjusted number |
| `Print.ReverseInPlace` | lib/print.c:345-354 | The swapping loop reverses exactly the given prefix |
| `Print.PutDigits` | lib/print.c:283-299 | The do loop writes the digits backwards |
| `Print.PutPadding` | lib/print.c:310-330 | The padding loops, with the sign moved behind the zeros |
| `InitStack.ChildReads` | user/lib/spawn.c:8-94 | Main result. The child reads back from its stack pointer exactly the parent's arguments, all of them and no more |
| `InitStack.InitStack` | user/lib/spawn.c:8-94 | Check, layout and return codes: whenever the check passes the page is filled, the stack pointer is USTACKTOP minus what is needed, and args[argc] is USTACKTOP - 1, not the null the comment announces |
| `InitStack.CopyStrings` | user/lib/spawn.c:37-50 | The copying loops put the strings and their zeros at the top of the page |
| `InitStack.StorePointers` | user/lib/spawn.c:52-63 | The pointers are the child's addresses of the strings |
| `InitStack.StoreWord` | user/lib/spawn.c:56-73 | A stored word reads back and no other word changes |

## Left out

- MemoryTheorems.RunSound: user permissions are without PTE_G and system calls name envs that exist; the count of a page to be shared must be below 65535, which `MemoryOps.InsertExact` shows to be needed.
- MemoryTheorems.LifeConserves: the runs inside are those in which no call runs out of memory, because a failing sys_mem_alloc loses a page (`MemoryTheorems.MemAllocSound` says when). What stray frames do to it is `MemoryTheorems.LifeExact`.
- MemoryTheorems.RefillSound: kernel addresses outside the user and UVPT windows are not modelled; passive_alloc panics on those it does not serve. passive_alloc makes UVPT pages writable; stores through such a translation are not modelled.
- MemoryTheorems.BootSound: env_init's kernel template is taken as two valid directory words whose tables boot keeps in use; map_segment is not modelled.
- Sched.RunInv: sys_set_env_status must really change the status of an env that is not receiving, env_free is applied to RUNNABLE envs, and sys_ipc_recv is called by a RUNNABLE env while another env is queued; the code checks none of these. `SchedTheorems.StatusExact` and `Queue.RemoveStrayExact` show what happens otherwise.
- Kernel.EnvTable.DoEnvFree: the env is RUNNABLE, likewise for EnvDestroy, because TAILQ_REMOVE runs whatever the status is.
- Kernel.EnvTable.SysSetEnvStatus: envid2env is left to the caller, and the status really changes.
- Kernel.EnvTable.EnvCreate: env_alloc succeeds, since env_create does not look at its result, and load_icode is not modelled.
- Kernel.EnvTable.SysExofork: an ASID must be free, since running out of ASIDs panics; the saved registers are not modelled.
- SchedTheorems.StaleIdStaysBad: the serial number in env ids is not bounded; it wraps after 2^21 allocations in the code.
- CowProofs.CowRefinesCopy: system calls in fork and in the handler succeed, inside duppage the parent makes no other system call, pages are not otherwise aliased by IPC or direct sys_mem_map, and memcpy is one step.
- Pipe.PipeNeverLooksClosed: pipe creation, fork and the exit of an env are single steps, `dup` copies onto a different descriptor, and there is one pipe per machine; env_runs is not bounded.
- PipeRing.PipeFifo: a byte transfer (buffer access and increment) is one step, and fewer than 2^32 bytes have been written.
- FsTheorems.RunOwned: a block handed out as an indirect block must not be cached with stale words, which `FsTheorems.CreateExact` shows to be needed.
- FsServer.Server.FileSetSize: the flush of the parent directory is not modelled.
- FsServer.Server.AllocBlockNum: the bitmap block is not written back to the disk.
- FsServer.Server.DirLookup: the directory has no holes below its size; with a hole the code would allocate a block there. It does not set `f_dir`. The same holds for WalkPath, which returns no parent directory or last name.
- Fsformat.AddBlockEffect: File records and names are fields, not bytes of a 256-byte struct, and a block's words and bytes are separate views; the byte order is little-endian.
- FsformatTree.ImageSound: names are shorter than MAXNAMELEN; a longer file name overruns f_name and a longer directory name is cut off without the message (strncpy leaves the last byte zero).
- Elf.Loader.ElfLoadSeg: addresses do not wrap at 2^32.
- Elf.Loader.MapPage: a failing page_alloc, page_insert or memory map is one answer of the mapper.
- Print.RoundTrip: the padding character is a blank or '0', the only two the caller sets.
- InitStack.InitStack: the page is the one the system call returns; words are little-endian.
- The parser of format strings in vprintfmt, and load_icode, spawn and ELF headers: they only call what is modelled here.
- Devices, IDE transfer, console, clock, boot, trap entry and tlb instructions, except that tlb_out removes one entry and a refill adds one.
- Writing metadata back to disk: File records and indirect blocks are never marked dirty, so no durability claim can be made.
- The file server's dispatch and client stubs, the shell and other programs, debugging output.
- LIST_INSERT_BEFORE and LIST_INSERT_AFTER, which the modelled code does not use, and the self-checks in the kernel.
- sys_set_trapframe, the entry for TLB-Mod exceptions and the console and device system calls.
