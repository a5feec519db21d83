# A model of the JOS lab kernels

JOS is a small multiprocessor exokernel: physical pages with reference counts and
two-level page tables, environments with system calls that edit each other's
address spaces, a big kernel lock, message passing, and a user-level library that
builds copy-on-write fork out of those calls. This project models the lab 4 kernel
(`OSLab7-Mitjoslab4`) with its fork and IPC libraries, the stricter page allocator
of lab 2 (`OSLab5-Mitjoslab2`) and the condition-variable buffer of
`OSLab2-PThread`, and proves what their parts keep and promise.

`dafny verify dfyconfig.toml` checks all of it.

| file | what it is about |
|---|---|
| `Paging.dfy`, `PmapSpec.dfy`, `Pmap.dfy` | `kern/pmap.c`: ownership of pages, page tables as a flat map, and the in-place code |
| `FreeListPartition.dfy`, `StrictAllocator.dfy` | the in-place partition of the free list; the allocator that asserts |
| `Tlb.dfy` | the translation cache of one CPU against the page tables |
| `EnvVm.dfy`, `EnvIds.dfy`, `Envs.dfy` | `kern/env.c`: address spaces built and taken apart, ids |
| `Bits.dfy`, `PteBits.dfy` | the C operators `\|` and `&`; the 32-bit numbers behind entries and `perm` arguments |
| `KernelSpec.dfy`, `Kernel.dfy`, `Protection.dfy`, `KernelRuns.dfy` | `kern/syscall.c`: ids, IPC and counts; what one environment can do to another; runs of the kernel, and what its calls are to `Smp` |
| `FlatMap.dfy`, `LibraryCalls.dfy` | the address spaces of all environments as one map; the library's calls, made on `Kernel`, as the steps of `CowFork` |
| `Scheduler.dfy`, `Smp.dfy`, `SmpProgress.dfy`, `SmpRuns.dfy` | the choice of `sched_yield`; N CPUs, the lock and the life cycle as a transition system; that every CPU can come out of the kernel again; runs from power-on that break a hypothesis |
| `CowFork.dfy`, `CowRights.dfy`, `ForkMoments.dfy`, `ForkCalls.dfy` | `lib/fork.c` against the eager copy of `user/dumbfork.c`: all interleavings, what the pages hold and who can write them, a whole call among them, and the code itself |
| `Sieve.dfy`, `SieveProgress.dfy` | `user/primes.c` over `lib/ipc.c`: what it prints, and that it can always go on |
| `Stabs.dfy` | `stab_binsearch` |
| `BoundedBuffer.dfy` | producer and customer |

## How the state is modelled

A 32-bit entry is a page number and a set of twelve flag bits, a `perm` argument such
a set and the number above it; `PteBits` proves that the code's bit operations are what
the model does with them. The flat map of an address space (`PmapSpec.Translation`) has
a PTE as it counts for the hardware: without PTE_U or PTE_W where the PDE lacks them; part
of the invariant is that no PDE below UTOP does. `pp_ref` is a 16-bit number that wraps. `Own` is bookkeeping
the C code leaves implicit: what each page is used for, the free list in order, and
each page's surplus, the amount by which its count exceeds its references. `Inv` ties it to memory: the list is acyclic
and duplicate-free, holds exactly the free pages, the tables form a tree, and every
count is the number of PTEs and PDEs below UTOP naming the page, plus one for a
directory's owner, plus the surplus. `Spaces` adds the environments: each live one
has a directory of its own, and no directory is without owner. `Kernel` keeps a
ghost count of the sys_page_alloc calls that took each page and proves it equal to
the surplus between calls.

## What the code does otherwise than its comments

- `sys_page_alloc` increments `pp_ref` itself and `page_insert` does so again
  (`OSLab7-Mitjoslab4/kern/syscall.c:190-191`), so a page it has mapped never
  returns to the free list; when `page_insert` fails the page does, with count one. It also
  accepts an unaligned `va`, which its comment excludes, and maps the page around it.
- The dispatcher returns 0 for SYS_env_destroy whatever `sys_env_destroy` returned
  (`OSLab7-Mitjoslab4/kern/syscall.c:412-415`).
- `env_ipc_perm` keeps its old value when no page is sent, where the comment says 0
  (`OSLab7-Mitjoslab4/kern/syscall.c:347-351`).
- `page_init` frees no base memory from MPENTRY_PADDR up, where its comment says the
  rest of it is free (`OSLab7-Mitjoslab4/kern/pmap.c:332-348`).
- `sched_yield` begins its scan at the current slot, not after it, and prefers a
  strictly smaller `pr` to the circular order.
- No upper bit of `perm` is checked by `sys_page_alloc` and `sys_page_map`
  (`OSLab7-Mitjoslab4/kern/syscall.c:184-185`); one that is not among the bits of the
  page number makes the new entry name another page. Nobody has counted that one: it
  may be on the free list, and its count is one short. `Kernel.Syscall` has this as the
  exact condition, and `Paging.Explained` says that no other reading of the counts helps.
- `stab_binsearch` promises left > right when no entry contains the address. That
  happens only where the region holds no entry of the type at all. When all of them
  lie above the address, the region is returned up to just before the first of them;
  with the first one at the left end, left == right == the old left end minus one. When
  it has met the address itself and an entry for the next byte is still in range, it
  returns an entry above the address instead (`Stabs.StepsPast`). When it
  has worked its way up to an entry at 0xffffffff, the address it looks for wraps to 0, and
  the region ends just before that entry (`Stabs.Wraps`).
- `env_run` leaves the status alone when the environment is already current
  (`OSLab7-Mitjoslab4/kern/env.c:530`), and `env_destroy` frees a DYING environment
  that another CPU still runs. `Smp` states exactly which calls are safe, and `SmpRuns`
  has runs in which unsafe ones do harm.

## Hypotheses

- Counts stay two short of 2^16 (`KernelSpec.Room`, `PmapSpec.HasRoom`); the code
  does not check.
- The theorems about tables in order (`KernelSpec.InOrder`, `Kernel.Valid`), counts and
  free pages among them, are about runs without two kinds of call: starting an
  environment that waits for a message, and mapping a page with a `perm` whose upper
  bits are not among those of its number. `Kernel.Syscall` proves that just these calls
  break the order, for all 32-bit `perm`; the runs of `KernelRuns` leave them out, and
  `FlatMap` and the fork library use flags alone.
- In `Smp` runs, `sys_env_set_status` and `env_destroy` have safe targets; the two
  lemmas ending in `SafeExactly` show that this is neither too much nor too little.
- In `CowFork` and `ForkCalls` system calls succeed; `LibraryCalls` proves that, with a
  free slot for a child, all they can lack is memory. Outside fork and pgfault a program allocates (always
  writable) and unmaps pages, exits, and receives pages through IPC that their sender
  cannot write; `CowFork.ReceiveSafeExactly` and `CowFork.WritableReceiveShows` say what
  a page the sender can write does to the invariant and to the refinement. It makes no
  sys_page_map of its own and neither maps, unmaps nor touches anything at PFTEMP. An
  environment does not end inside fork or pgfault, and pgfault's stores to the exception
  stack, which fork does not share, are no steps.
- In `Sieve` fork succeeds, and runs end before the generator's `int` overflows.
- In `Stabs` the entries of the type within the region are sorted.
- In `BoundedBuffer` a thread returns from `pthread_cond_wait` only when signalled,
  except where `Spurious` says so.

## Model

| member | source | states |
|---|---|---|
| Pmap.PageInit | OSLab7-Mitjoslab4/kern/pmap.c:322-362 | the free list visits exactly the pages below MPENTRY_PADDR, 0x7000, but page 0, and those behind the kernel, each once, all with count 0 |
| Pmap.PhysMem.constructor | OSLab7-Mitjoslab4/kern/pmap.c:322-362 | the memory page_init leaves satisfies the page ownership invariant |
| Pmap.PhysMem.PageAlloc | OSLab7-Mitjoslab4/kern/pmap.c:373-385 | hands out the head of the free list, its bytes zeroed if and only if that is asked for and no others touched, and keeps the ownership invariant; fails only on an empty list |
| Pmap.PhysMem.PageDecref | OSLab7-Mitjoslab4/kern/pmap.c:403-408 | the new memory is that of the specification function, whose effect Paging.DecRef proves |
| Paging.DecRef | OSLab7-Mitjoslab4/kern/pmap.c:403-408 | giving back one count keeps the ownership invariant, and puts the page on the free list exactly when it was the last count |
| Paging.PushUnreferenced | OSLab7-Mitjoslab4/kern/pmap.c:391-397 | putting an unreferenced page back keeps the list acyclic and duplicate-free and every count exact |
| Paging.Unreferenced | OSLab7-Mitjoslab4/kern/pmap.c:373-408 | no PTE or PDE below UTOP and no directory root names a free page |
| Pmap.PhysMem.PgdirWalk | OSLab7-Mitjoslab4/kern/pmap.c:432-456 | finds or creates the page table of `va`; the ownership invariant it keeps asks of every directory entry below UTOP that it leaves user mode the right to read and write; on failure memory and ownership are unchanged |
| PmapSpec.WalkCorrect | OSLab7-Mitjoslab4/kern/pmap.c:432-456 | creating a page table changes no mapping of any environment as the hardware sees it, no page contents and no surplus, and its directory entry has PTE_U and PTE_W; it fails exactly when the table is missing and no page is free |
| PmapSpec.InvReady | OSLab7-Mitjoslab4/kern/pmap.c:905-917 | the entry page_lookup finds is exactly the one that counts for the hardware, PDE and PTE taken together, and the one check_va2pa finds; the walk never runs off the tables |
| Pmap.PhysMem.PageLookup | OSLab7-Mitjoslab4/kern/pmap.c:531-539 | returns the mapped page and the table holding its PTE, or nothing when no entry is present |
| PmapSpec.RemoveCorrect | OSLab7-Mitjoslab4/kern/pmap.c:556-570 | page_remove is a point removal from the flat map; the page returns to the free list exactly when this was its last count; everything else is unchanged |
| Pmap.PhysMem.PageRemove | OSLab7-Mitjoslab4/kern/pmap.c:556-570 | the in-place code does what RemoveCorrect proves |
| PmapSpec.InsertCorrect | OSLab7-Mitjoslab4/kern/pmap.c:506-518 | page_insert is a point update of the flat map, and of what the hardware grants: at `va` user mode then has the rights perm says, elsewhere those it had; re-inserting the same page changes no count and not the free list; -E_NO_MEM exactly when a table is needed and no page is free, and then nothing at all has changed; for every 32-bit perm, the ownership invariant holds afterwards if and only if the stored entry names the page inserted, and otherwise no account of what pages are for explains the counts |
| PmapSpec.AccessFollowsMap | OSLab7-Mitjoslab4/kern/pmap.c:432-518 | what PDE and PTE both grant changes at one page of one address space just when the map does, to the rights of the new entry |
| Pmap.PhysMem.PageInsert | OSLab7-Mitjoslab4/kern/pmap.c:506-518 | the in-place code, step by step, does what InsertCorrect proves, the rights user mode gets included; the tables stay valid if and only if it fails or perm has no bit above the flags that the page number has not |
| Paging.RenamedExactly | OSLab7-Mitjoslab4/kern/pmap.c:516 | after a store into a present PTE the books are right, or any others with the same directories and surpluses are, if and only if the new entry names the page the old one named |
| Paging.RenamedUndercounts | OSLab7-Mitjoslab4/kern/pmap.c:516 | otherwise the count of the page it names now is one less than its references and surplus |
| FreeListPartition.Relink | OSLab7-Mitjoslab4/kern/pmap.c:703-716 | after the relinking loop the list is again acyclic and holds the same pages, with none from PTSIZE on before one below it and the order within either side kept; counts and all other pages are untouched |
| FreeListPartition.PartitionedIsLowPagesFirst | OSLab7-Mitjoslab4/kern/pmap.c:703-716 | for every list of pages below 4 GB: no page from PTSIZE on stands before one below PTSIZE, two pages on the same side stand as they did, and the pages are the same |
| FreeListPartition.Join | OSLab7-Mitjoslab4/kern/pmap.c:714-716 | the two closing stores, whichever class is empty |
| FreeListPartition.PartitionPermutes | OSLab7-Mitjoslab4/kern/pmap.c:703-716 | the relinked list holds the same pages, each as often |
| FreeListPartition.OnlyKeepsOrder | OSLab7-Mitjoslab4/kern/pmap.c:703-716 | the partition is stable: pages of one class keep their order |
| FreeListPartition.RelinkKeepsInv | OSLab7-Mitjoslab4/kern/pmap.c:703-716 | the ownership invariant holds of the relinked list |
| StrictAllocator.PageInit | OSLab5-Mitjoslab2/kern/pmap.c:235-283 | page 0, the I/O hole and the kernel get count 1 and stay off the list; every other page is on it once |
| StrictAllocator.Allocator.PageAlloc | OSLab5-Mitjoslab2/kern/pmap.c:294-310 | takes the first free page, zeroes it on request and touches no other page's bytes, and leaves it in the state the assertions of page_free ask for |
| StrictAllocator.Allocator.PageFree | OSLab5-Mitjoslab2/kern/pmap.c:316-327 | the assertions pass for unreferenced pages that are not free, and for the last page of the free list; freeing that one again leaves a list without an end |
| StrictAllocator.AssertionsExactly | OSLab5-Mitjoslab2/kern/pmap.c:316-327 | the double frees that the assertions miss are exactly those of the last free page |
| Tlb.Mmu.TlbInvalidate | OSLab7-Mitjoslab4/kern/pmap.c:576-582 | drops the cached entry exactly when there is no curenv or it owns the directory |
| Tlb.FlushNeededExactly | OSLab7-Mitjoslab4/kern/pmap.c:576-582 | after clearing an entry every possible cache content is right again if and only if the entry was flushed or another directory is loaded |
| Tlb.Mmu.PageRemove | OSLab7-Mitjoslab4/kern/pmap.c:556-570 | with the hardware caching and evicting at will between the steps, every cached translation agrees with the tables afterwards |
| Tlb.Mmu.PageInsert | OSLab7-Mitjoslab4/kern/pmap.c:506-518 | the same for page_insert, whatever perm it is given; the new entry is written only when the old one is out of table and cache |
| Tlb.Mmu.PageAlloc | OSLab7-Mitjoslab4/kern/pmap.c:373-385 | as does taking a page, zeroed or not |
| Tlb.Mmu.PageFree | OSLab7-Mitjoslab4/kern/pmap.c:391-397 | as does giving an unreferenced one back |
| Tlb.Mmu.EnvSetupVm | OSLab7-Mitjoslab4/kern/env.c:163-199 | as does making a directory |
| Tlb.Mmu.EnvRun | OSLab7-Mitjoslab4/kern/env.c:508-537 | loading the next directory keeps cache and tables in agreement |
| Tlb.Mmu.Halt | OSLab7-Mitjoslab4/kern/sched.c:85-87 | as does going back to kern_pgdir |
| Tlb.Mmu.EnvFree | OSLab7-Mitjoslab4/kern/env.c:404-452 | as does freeing an address space, the current one included |
| Tlb.NoFreePageCached | OSLab7-Mitjoslab4/kern/pmap.c:556-582 | no cached translation names a page on the free list |
| EnvVm.EnvSetupVm | OSLab7-Mitjoslab4/kern/env.c:163-199 | the new directory maps nothing below UTOP and has the kernel's entries above, itself at UVPT; no other mapping changes; on -E_NO_MEM nothing does |
| EnvVm.EnvFree | OSLab7-Mitjoslab4/kern/env.c:404-452 | the nested loops leave no mapping of the environment, keep every other environment's mappings, and return to the free list exactly the pages whose references all lay inside and which have no surplus |
| EnvVm.FreedExactly | OSLab7-Mitjoslab4/kern/env.c:404-452 | the references that remain are exactly those from outside the freed address space |
| EnvIds.IdClosedForm | OSLab7-Mitjoslab4/kern/env.c:222-227 | the n-th id of a slot in closed form, two's-complement wrap included |
| EnvIds.IdWellFormed | OSLab7-Mitjoslab4/kern/env.c:222-227 | every id is positive and ENVX(id) is its slot |
| EnvIds.IdRepeats | OSLab7-Mitjoslab4/kern/env.c:222-227 | two allocations of a slot share an id if and only if a multiple of 2^19 - 1 lies between them |
| EnvIds.IdsOfSlotsDiffer | OSLab7-Mitjoslab4/inc/env.h:12-30 | ids of different slots never coincide |
| KernelSpec.StaleIdsRejected | OSLab7-Mitjoslab4/kern/env.c:75-109 | envid2env accepts an id handed out earlier only for its own live environment, or after a whole number of id periods; the id of a freed environment is always refused |
| KernelSpec.Resolve | OSLab7-Mitjoslab4/kern/env.c:93-104 | what is found is live or the caller, has the id asked for, and where permission is asked for is the caller or an immediate child of it (ResolveFinds and OwnIdFound say what is found) |
| KernelSpec.ResolveFinds | OSLab7-Mitjoslab4/kern/env.c:75-109 | envid2env finds an environment if and only if the id is 0 and it is the caller, or it is live with that id and, where permission is asked for, is the caller or a child of the caller |
| KernelSpec.OwnIdFound | OSLab7-Mitjoslab4/kern/env.c:75-109 | a live environment is found under its own id by itself and by its parent, with permission asked for or not, and by everyone else only where it is not; id 0 finds the caller |
| Kernel.Kernel.Envid2Env | OSLab7-Mitjoslab4/kern/env.c:75-109 | the lookup finds exactly what the id stands for, the exemption of the caller from the parent check included |
| Kernel.EnvInit | OSLab7-Mitjoslab4/kern/env.c:117-127 | every slot is free with id 0, and the free list hands out envs[0], envs[1], ... in order |
| Kernel.Kernel.constructor | OSLab7-Mitjoslab4/kern/env.c:117-127 | the tables start in order |
| Kernel.Kernel.EnvAlloc | OSLab7-Mitjoslab4/kern/env.c:209-274 | takes the first free slot, gives it its next id, the parent named, status RUNNABLE, the initial registers, no upcall, no pending receive, type and run count, and an empty address space, disturbs no other environment and no byte of a page in use; errors change nothing |
| Kernel.Kernel.EnvRun | OSLab7-Mitjoslab4/kern/env.c:530-537 | a switch makes the old environment runnable if it was running, the new one running and counts the run; running the same one again changes nothing; the tables stay in order |
| Kernel.Kernel.EnvFree | OSLab7-Mitjoslab4/kern/env.c:404-452 | the slot returns to the head of the free list; every other environment keeps its mappings; a page in use goes back exactly when nobody maps it any more and no sys_page_alloc took it; the bytes of the pages that stay in use do not change |
| KernelSpec.CountIsMappings | OSLab7-Mitjoslab4/kern/pmap.c:399-408 | in every state in order, pp_ref of a data page is the number of places where live environments map it plus its surplus |
| Kernel.Kernel.CountsAreExact | OSLab7-Mitjoslab4/kern/syscall.c:170-201 | in every state the system calls leave in order, that surplus is the number of sys_page_alloc calls that took the page; that they do leave it in order is Kernel.Syscall |
| KernelSpec.MappedIsNotFree | OSLab7-Mitjoslab4/kern/pmap.c:403-408 | a page some live environment maps is never on the free list |
| KernelSpec.LastCountIsOnlyMapping | OSLab7-Mitjoslab4/kern/pmap.c:403-408 | page_decref frees a page exactly when the mapping being removed is its only one and no sys_page_alloc ever took it: pages from sys_page_alloc are never given back |
| KernelSpec.PageCallsCheck | OSLab7-Mitjoslab4/kern/syscall.c:170-291 | sys_page_alloc, sys_page_map and sys_page_unmap get past their checks if and only if every id names the caller or a child, every address is below UTOP and (but for sys_page_alloc) aligned, perm has PTE_P and PTE_U, and a page mapped writable is writable for its holder; past them only memory can lack |
| Kernel.Kernel.SysPageAlloc | OSLab7-Mitjoslab4/kern/syscall.c:170-201 | the errors in order; the tables stay in order if and only if the entry made names the page taken; on success a zeroed page that nothing else maps, when it does, is at `va` and no other mapping has changed; on failure no mapping has changed and the page is back on the list, but either way its count is one too high; the bytes of every page that was in use stay |
| Kernel.Kernel.SysPageMap | OSLab7-Mitjoslab4/kern/syscall.c:219-267 | the errors in order; the tables stay in order if and only if the entry made names the source's page; on success exactly one entry of the address spaces changes, and no byte of a page in use; on failure nothing does |
| Kernel.Kernel.SysPageUnmap | OSLab7-Mitjoslab4/kern/syscall.c:276-291 | exactly one entry is removed, the pages freed are those it alone mapped, and the bytes of the others stay |
| Kernel.Kernel.SysExofork | OSLab7-Mitjoslab4/kern/syscall.c:85-106 | a child with the next id of its slot, the caller as parent and the caller's registers but for a zero in eax, not runnable, without upcall or pending receive, and with nothing mapped |
| Kernel.Kernel.SysEnvDestroy | OSLab7-Mitjoslab4/kern/syscall.c:58-72 | an environment running elsewhere is only marked DYING; any other is freed with exactly the pages that nobody else maps; the call returns unless the caller destroyed itself |
| Kernel.Kernel.SysEnvSetStatus | OSLab7-Mitjoslab4/kern/syscall.c:115-132 | keeps the tables in order if and only if it does not start an environment that waits for a message |
| Kernel.Kernel.SysIpcTrySend | OSLab7-Mitjoslab4/kern/syscall.c:331-360 | exactly the waiting receiver gets sender, value and, if both asked for it, the page, and stops waiting, so a later sender gets -E_IPC_NOT_RECV; an error changes no field and no mapping; sends accepted and receives begun stay matched one to one |
| KernelSpec.SendChecks | OSLab7-Mitjoslab4/kern/syscall.c:331-346 | sys_ipc_try_send gets past its checks if and only if the target lives and waits for a message and, when a page is offered, it is mapped and aligned and its entry has every bit of perm; past them only memory can lack |
| Kernel.Kernel.Deliver | OSLab7-Mitjoslab4/kern/syscall.c:347-357 | the receiver has sender and value, runs on with a zero in eax, and has perm in env_ipc_perm if a page came along and its old one otherwise; nothing else of it changes |
| Kernel.Kernel.Transfer | OSLab7-Mitjoslab4/kern/syscall.c:338-351 | the page checks in order, and the one entry of the receiver that changes |
| Kernel.Kernel.SysIpcRecv | OSLab7-Mitjoslab4/kern/syscall.c:373-385 | the caller waits, at an aligned or absent address; an error changes nothing |
| Kernel.Kernel.SysEnvSetPgfaultUpcall | OSLab7-Mitjoslab4/kern/syscall.c:142-152 | sets the one field of the resolved environment, or refuses |
| Kernel.Kernel.SysChangePr | OSLab7-Mitjoslab4/kern/syscall.c:387-390 | sets the caller's pr and nothing else |
| Kernel.Kernel.Syscall | OSLab7-Mitjoslab4/kern/syscall.c:393-442 | what every call returns, or that it does not return; whatever the call and its arguments, the tables stay in order if and only if it neither starts a waiting receiver nor maps a page through an entry that names another one, which no account of the counts explains; what becomes of every environment; only sys_page_alloc adds to a surplus, one to the page it takes; no call changes a byte of a page that stays in use |
| KernelRuns.CountsOverRun | OSLab7-Mitjoslab4/kern/syscall.c:170-442 | after any run of system calls, env_runs and deaths but those two kinds of call, pp_ref of a data page is the number of places where live environments map it plus the number of sys_page_alloc calls of the run that took it |
| KernelRuns.IdsOverRun | OSLab7-Mitjoslab4/kern/env.c:75-109 | at every later point of such a run an id once handed out finds its own environment, or one allocated in the same slot a whole number of id periods later, and nobody else |
| Protection.MapGuarded | OSLab7-Mitjoslab4/kern/syscall.c:219-267 | a successful sys_page_map changes only an address space of the caller or a child of it, and what it maps writable somebody could write before |
| Protection.SendGuarded | OSLab7-Mitjoslab4/kern/syscall.c:331-360 | a message changes only the page the waiting receiver asked for, and brings no more rights to it than the sender has |
| KernelRuns.OthersUnchanged | OSLab7-Mitjoslab4/kern/syscall.c:393-442 | a system call changes nothing of an environment that is neither the caller nor a child of it, but that a waiting receiver gets its message |
| KernelRuns.SpacesProtected | OSLab7-Mitjoslab4/kern/syscall.c:393-442 | over any run, what an environment has mapped at an address changes only by its own calls and its parent's, by a message it waits for there, and by its death |
| KernelRuns.ReadOnlyStays | OSLab7-Mitjoslab4/kern/syscall.c:219-360 | over any run, a page in use that no environment can write stays so until it has been free: no call and no message makes it writable |
| KernelRuns.CallIsSmpStep | OSLab7-Mitjoslab4/kern/syscall.c:393-442 | whatever call a CPU dispatches, status, directory and waiting flag of every environment go on as the step of the Smp machine of that name says |
| KernelRuns.RunIsSmpStep | OSLab7-Mitjoslab4/kern/env.c:530-537 | so they do for env_run |
| KernelRuns.DeathIsSmpStep | OSLab7-Mitjoslab4/kern/trap.c:304-309 | and for an environment that faulted or was marked to die |
| FlatMap.CallIsStep | OSLab7-Mitjoslab4/lib/fork.c:14-139 | what the system call for a step of the CowFork machine promises turns the kernel's address spaces into exactly the page table of the machine after the step |
| FlatMap.MapIsUpdate | OSLab7-Mitjoslab4/kern/syscall.c:260-264 | one changed entry of an address space is one update of the map from (environment, page) to entry |
| FlatMap.UnmapIsRemoval | OSLab7-Mitjoslab4/kern/syscall.c:276-291 | one removed entry takes one entry of that map away |
| FlatMap.AllocIsFresh | OSLab7-Mitjoslab4/kern/syscall.c:186-197 | the page sys_page_alloc maps is one that no entry of the map named |
| FlatMap.ExoforkAddsNothing | OSLab7-Mitjoslab4/kern/syscall.c:85-106 | a new environment leaves the map as it is |
| FlatMap.ExitDropsItsOwn | OSLab7-Mitjoslab4/kern/env.c:404-452 | an environment that is freed takes exactly its own entries with it |
| LibraryCalls.Follows | OSLab7-Mitjoslab4/lib/fork.c:14-139 | after such a call the kernel has the page table of the machine after the step, and every mapped page holds the machine's bytes |
| LibraryCalls.MapStep | OSLab7-Mitjoslab4/lib/fork.c:46-76 | the sys_page_map calls of pgfault and duppage, made on the kernel itself, take kernel and machine to the same place; they fail only for want of memory, and then both stay where they were |
| LibraryCalls.AllocStep | OSLab7-Mitjoslab4/lib/fork.c:43-43 | so do the sys_page_alloc calls of pgfault, fork and the program |
| LibraryCalls.UnmapStep | OSLab7-Mitjoslab4/lib/fork.c:48-48 | so does sys_page_unmap, which never fails |
| LibraryCalls.ExoforkStep | OSLab7-Mitjoslab4/lib/fork.c:105-105 | so does sys_exofork |
| LibraryCalls.StartStep | OSLab7-Mitjoslab4/lib/fork.c:134-134 | so does making the child runnable |
| LibraryCalls.SendStep | OSLab7-Mitjoslab4/lib/ipc.c:46-57 | so does sending a page to a waiting receiver |
| LibraryCalls.ExitStep | OSLab7-Mitjoslab4/lib/exit.c:4-8 | so does exit |
| PteBits.EntryIsStored | OSLab7-Mitjoslab4/kern/pmap.c:516 | the 32-bit number page2pa(pp) | perm | PTE_P, taken apart into page number and flags, is the entry the model stores |
| PteBits.NamesItsPageExactly | OSLab7-Mitjoslab4/kern/pmap.c:516 | it names the page it is for if and only if every bit of perm above the flags is a bit of the page number |
| PteBits.AcceptedExactly | OSLab7-Mitjoslab4/kern/syscall.c:184-185 | the test of sys_page_alloc and sys_page_map on the number is that on the set of flags |
| PteBits.SentExactly | OSLab7-Mitjoslab4/kern/syscall.c:343-343 | the test (*pte & perm) != perm asks for every flag and for every upper bit |
| PteBits.SentPermIsHarmless | OSLab7-Mitjoslab4/kern/syscall.c:343-348 | so whatever perm sys_ipc_try_send lets through, the receiver's entry names the sender's page |
| PteBits.AcceptedPermNamesAnother | OSLab7-Mitjoslab4/kern/syscall.c:184-191 | a perm that sys_page_alloc accepts makes page 3 appear where page 2 was allocated |
| PteBits.ForkPerms | OSLab7-Mitjoslab4/lib/fork.c:8-75 | the numbers fork passes as perm, PTE_COW, PTE_U and PTE_P or-ed and PTE_W, PTE_U and PTE_P or-ed among them, are the sets of flags the model has for them |
| Scheduler.SchedYield | OSLab7-Mitjoslab4/kern/sched.c:32-54 | the scan chooses the smallest pr, the first in circular order among equals, and the running environment only if it is strictly better |
| Scheduler.ChosenInPlainWords | OSLab7-Mitjoslab4/kern/sched.c:32-54 | nobody is chosen only if nobody can run; the running one stays only if its pr is below that of every runnable one; otherwise it is a runnable one of the least pr, met first from the running one's slot on, or from slot 0 where there is none |
| Scheduler.LowestSlotWithoutCurenv | OSLab7-Mitjoslab4/kern/sched.c:33-46 | without a current environment no lower slot that is runnable with a pr as small is passed over |
| Scheduler.ChoiceExists | OSLab7-Mitjoslab4/kern/sched.c:32-54 | the scan always comes to a choice |
| Scheduler.BestUnique | OSLab7-Mitjoslab4/kern/sched.c:32-54 | that describes one environment at most |
| Scheduler.BoundedWaiting | OSLab7-Mitjoslab4/kern/sched.c:32-54 | on one CPU every member of the smallest-pr class is dispatched within as many yields as the class has members |
| Smp.StepKeepsInv | OSLab7-Mitjoslab4/kern/trap.c:274-333 | every step of every CPU keeps lock, current environments, statuses and loaded directories consistent |
| Smp.KernelIsExclusive | OSLab7-Mitjoslab4/kern/spinlock.c:60-120 | over every run of N CPUs at most one is between taking and giving up the lock, the lock is taken exactly while one is, and neither panic of the spin lock is reachable |
| Smp.NoEnvironmentOnTwoCpus | OSLab7-Mitjoslab4/kern/env.c:459-541 | over every run no environment is current on two CPUs, outside the lock a current environment is RUNNING or DYING, every RUNNING one is current somewhere, and a directory in a cr3 belongs to a live environment |
| SmpProgress.HolderLeaves | OSLab7-Mitjoslab4/kern/spinlock.c:60-120 | from every state in order a CPU with the lock can, by its own steps, come back to user mode or to rest with the lock free, unless it finds nothing to run |
| SmpProgress.NoDeadlock | OSLab7-Mitjoslab4/kern/trap.c:274-333 | whatever has happened since power-on, every CPU that is in the kernel or waits for its lock can come out again, unless some CPU stays in the monitor |
| SmpProgress.CallReturns | OSLab7-Mitjoslab4/kern/trap.c:321-333 | a system call or page fault that leaves its environment running, and does not yield, goes back to it: the steps the CPU must take lead to user mode with the same environment, and change no environment |
| Smp.SetStatusSafeExactly | OSLab7-Mitjoslab4/kern/syscall.c:115-132 | sys_env_set_status keeps this if and only if the caller only makes itself not runnable, and any other target is neither running nor dying and, if it waits for a message, is not made runnable |
| Smp.DestroySafeExactly | OSLab7-Mitjoslab4/kern/env.c:459-476 | env_destroy keeps this if and only if the target is not already DYING |
| SmpRuns.SelfRunnableRunsTwice | OSLab7-Mitjoslab4/kern/env.c:530-537 | a concrete run from power-on: an environment that marks itself runnable ends up in user mode on two CPUs |
| SmpRuns.StartedReceiverRunsTwice | OSLab7-Mitjoslab4/kern/syscall.c:331-360 | another: a parent makes a waiting receiver runnable and sends to it later, and the receiver ends up in user mode on two CPUs |
| SmpRuns.DestroyedTwiceLosesDirectory | OSLab7-Mitjoslab4/kern/env.c:460-470 | another: a parent destroys a running child twice, and the child runs on with a directory that has been freed |
| CowFork.StepKeepsInv | OSLab7-Mitjoslab4/lib/fork.c:14-139 | after every step of any environment a writable page has one mapping, but for PFTEMP inside pgfault and the window inside duppage |
| CowFork.StepRefines | OSLab7-Mitjoslab4/lib/fork.c:14-139 | every step is a step, or nothing, of the machine that copies pages eagerly |
| CowFork.CowForkMeansEagerCopy | OSLab7-Mitjoslab4/lib/fork.c:64-139 | over every interleaving of stores, faults, forks, allocations and exits, each environment has exactly the pages and bytes it would have had if fork had copied every page (that it can also make the stores it could then make is CowRights) |
| CowRights.StepKeepsRights | OSLab7-Mitjoslab4/lib/fork.c:14-139 | after every step of any environment the pages that can be stored into, at once or through pgfault, are those of the eager machine whose copies have the rights of what they copy |
| CowRights.CowForkKeepsRights | OSLab7-Mitjoslab4/lib/fork.c:64-139 | so they are over every run, for each started environment: fork takes no right to write away, from parent or child, and gives none |
| CowRights.RightLasts | OSLab7-Mitjoslab4/lib/fork.c:14-139 | a page a started environment could once write stays writable or copy-on-write, whatever anyone does, until that environment unmaps it, receives over it or exits |
| CowRights.StoreCanBeMade | OSLab7-Mitjoslab4/lib/fork.c:14-51 | and with one fresh page the store can be made: a run of the environment's own steps, from the fault to the store, does in the eager machine that store and nothing else |
| CowFork.ReceiveSafeExactly | OSLab7-Mitjoslab4/kern/syscall.c:338-351 | a page received through IPC keeps the invariant if and only if its sender cannot write it |
| CowFork.WritableReceiveShows | OSLab7-Mitjoslab4/kern/syscall.c:338-351 | a page received from a sender that can write it is not what the eager machine has: the sender's next store shows through |
| CowFork.NobodyElseWrites | OSLab7-Mitjoslab4/lib/fork.c:14-139 | nothing other environments do changes what a started environment has mapped or reads |
| CowFork.DuppageCopiesOneMoment | OSLab7-Mitjoslab4/lib/fork.c:64-80 | whatever runs before, between and after the two calls, duppage ends with the page not writable in the parent and the child seeing it as it was at one moment of the call |
| CowFork.LaunchedChildIsComplete | OSLab7-Mitjoslab4/lib/fork.c:113-135 | when the child is made runnable it has just the parent's pages below USTACKTOP, 0xEEBFE000 |
| ForkMoments.ForkCopiesMoments | OSLab7-Mitjoslab4/lib/fork.c:98-139 | from sys_exofork to the child's start, with any steps of any environment in between, the parent's own stores and faults included, the child gets just the parent's pages below USTACKTOP, each as the parent saw it at some moment of the call |
| ForkCalls.Space.Pgfault | OSLab7-Mitjoslab4/lib/fork.c:14-51 | takes exactly the writes to copy-on-write pages; leaves the page writable, private and with the same bytes, and changes nothing else; every step is one of the machine's |
| ForkCalls.Space.Memcpy | OSLab7-Mitjoslab4/lib/fork.c:45-45 | the byte loop copies the whole page and touches no other |
| ForkCalls.Space.Duppage | OSLab7-Mitjoslab4/lib/fork.c:64-80 | for a page that is there, the child gets the parent's page; if the parent could write it, at once or after a fault, both entries then have PTE_P, PTE_U and PTE_COW and no more, otherwise the parent's stays and the child's has PTE_P and PTE_U; what either reads is what the parent read before, whatever other environments do between the calls |
| ForkCalls.Space.SetPgfaultHandler | OSLab7-Mitjoslab4/lib/pgfault.c:24-39 | the first call gives a private zeroed exception stack and registers the upcall; a later one changes no mapping |
| ForkCalls.Space.Fork | OSLab7-Mitjoslab4/lib/fork.c:98-139 | with the other environments taking any steps between those of fork, page by page below 0xEEBFE000 the child has and reads what the parent did when it called, and the parent still does; they share the page, copy-on-write in both entries if the parent could write it and read-only otherwise; both have the upcall and an exception stack; without such steps no other environment is touched |
| ForkCalls.Space.EagerDuppage | OSLab7-Mitjoslab4/user/dumbfork.c:25-40 | the eager duppage is exactly one Copy step of the eager machine, gives the child a writable page and leaves nothing at UTEMP; for the page UTEMP itself it gives the child zeros |
| ForkCalls.Space.Dumbfork | OSLab7-Mitjoslab4/user/dumbfork.c:42-83 | a new child that has a writable copy of each of the program's pages and of the stack page is started; nothing else changes, but that UTEMP ends unmapped |
| Sieve.StepKeepsInv | OSLab7-Mitjoslab4/lib/ipc.c:22-57 | every send and receive keeps what a process received, filtered, equal to what its right neighbour received but for one number on its way |
| Sieve.ReceivedSoFar | OSLab7-Mitjoslab4/user/primes.c:13-36 | what a process has received is a prefix of the integers from 2 up that no prime before it divides |
| Sieve.SievePrintsPrimes | OSLab7-Mitjoslab4/user/primes.c:13-52 | under every interleaving the printed numbers are the primes in order, each once, and no process divides by zero |
| SieveProgress.EveryPrimeCanCome | OSLab7-Mitjoslab4/user/primes.c:13-52 | whatever has happened, the run can go on until exactly the primes below b have been printed, for every b up to the largest int: no process is ever stuck |
| Stabs.StabBinsearch | OSLab7-Mitjoslab4/kern/kdebug.c:59-103 | terminates; brackets addr between the last entry at or below it and the next one if and only if the search does not step past it, so whenever there are not entries at both addr and addr + 1; what it returns when no entry, or none at or below addr, exists; and that it ends just before the entry at 0xffffffff when it comes upon one |
| Stabs.ScanDown | OSLab7-Mitjoslab4/kern/kdebug.c:69-71 | the inner loop finds the last entry of the type at or below the middle |
| Stabs.NotPast | OSLab7-Mitjoslab4/kern/kdebug.c:84-90 | the search steps past only where there are entries both at addr and at addr + 1 |
| Stabs.WrapsOverAll | OSLab7-Mitjoslab4/kern/kdebug.c:84-90 | the address it looks for wraps to 0 only where every address from addr to 0xffffffff has an entry |
| Stabs.StepsPastHappens | OSLab7-Mitjoslab4/kern/kdebug.c:84-90 | two entries one byte apart make it do so |
| BoundedBuffer.BufferIsSafe | OSLab2-PThread/main.c:17-61 | for TOTAL >= 3 and no spurious wake-ups, over every run 0 <= goods <= TOTAL, goods is 2 and what was made less what was taken, the threads never both hold the mutex nor both wait, and one can always go on |
| BoundedBuffer.GoodsAreCounted | OSLab2-PThread/main.c:17-61 | over every run, spurious wake-ups or not, goods grows by the items the producer makes less those the customer takes |
| BoundedBuffer.WaitsAndIsWoken | OSLab2-PThread/main.c:17-61 | after every such run either thread can come to wait, the producer at TOTAL and the customer at 0, and then be woken with the other one item away from there |
| BoundedBuffer.SafeExactlyFromThree | OSLab2-PThread/main.c:8-61 | the counter stays within bounds over every such run if and only if TOTAL >= 3 |
| BoundedBuffer.SpuriousOverflow | OSLab2-PThread/main.c:17-38 | for every such TOTAL a single spurious wake-up overflows the buffer |

## Left out

- Syscall: sys_cputs, whose only effect is output, is left out; the character sys_cgetc returns is a parameter.
- Fork: the steps between those of fork are of other environments; the parent's own stores and faults inside the call are in ForkMoments.ForkCopiesMoments.
- Dumbfork: the program's pages and the stack page are given by number, and nobody else takes a step meanwhile.
- SchedYield: a function of the environment table; the switch it makes is in Smp and in Scheduler.Switch.
- pfork differs from fork only in sys_change_pr in the child; the `pr` field is in Scheduler.
- Fairness: SmpProgress, SieveProgress, BoundedBuffer.WaitsAndIsWoken and CowRights.StoreCanBeMade say that every run can go on as they state, not that every fair one does.
- TLB shootdown: the code does not do it, so Tlb is about one CPU, and paging-structure caches are not modelled.
- Mappings above UTOP (boot_map_region, mmio_map_region, the kernel stacks) are not counted by the code and appear only as reserved frames.
- Saved registers, trap frames, iret and the user exception stack layout of page_fault_handler: abstract steps.
- Inside the lock, Smp treats each system call as one step; what it does to memory is in Kernel, and that the two agree in KernelRuns.
- user_mem_check, the ELF loader, debuginfo_eip beyond stab_binsearch, the monitor, devices and boot code.
- Smp keeps no registers and does not count env_runs. The switch that sys_yield ends in is in Smp and Scheduler.
- The panics inside fork and dumbfork, which end the process.
- OSLab3-MiniShell, OSLab4-AddShellOnProtected and the other copies of the labs' files.
