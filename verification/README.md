# Verification of the memory and process core

A Dafny 4.11 model of the memory and process core of this RISC-V teaching kernel, with machine-checked proofs
about it. `dafny verify dfyconfig.toml` checks the whole project.

The model has four parts.

**Memory.** The pages of [KERNEND, PHYEND) are a map from page address to 512 words. `Vm.Kernel` is the kernel's
state: that memory and `kmem.freelist`, both updated in place, word by word. Ghost fields say what every page is
(free, handed-out data, or a table of some level hanging in a slot of its parent), list the free pages in order and
name the root slots that do not point at a table of the tree (`cut`). `PageTable.Inv` ties them to the words: the
free list is threaded through word 0 of its pages and ends in 0, every valid entry of an upper table points to the
one table that names this slot as its parent, and no table hangs in two places. `PageTable.Trans(mem, root, n)` is
the flat map of a table: what virtual page `n` translates to. Every operation is specified on that flat map.
`Sv39.HwMaps` says where the processor's own walk takes a page and which flag bits it finds there; kvmcreate, uvmalloc and
elf_load_seg promise their result in these terms too.

| file | contents |
|---|---|
| Outcome.dfy | options, error codes, and results that are either a value or a panic site |
| Mmu.dfy, Bits.dfy | address and entry arithmetic; single bits of words |
| PageTable.dfy | memory, tables, the invariant, what single steps do to the flat map |
| Teardown.dfy | what freewalk has freed after each entry |
| UserMemory.dfy | growing, shrinking and copying address spaces |
| Vm.dfy | kalloc to kvm_copy_to_user_pagetable as methods of `Kernel` |
| Accounting.dfy, MemoryRun.dfy | where every page is; any run of calls by a client |
| Sv39.dfy | the translation algorithm of section 4.3.2 of the RISC-V Privileged Architecture, version 20211203 |
| Boot.dfy, EnvVm.dfy, Startup.dfy, Loader.dfy | kvmcreate, env_setup_vm, the two in sequence from power-on, elf_load_seg, on top of `Kernel` |
| Queue.dfy | the LIST and TAILQ macros on linked cells |
| EnvTable.dfy, Sched.dfy | envs, ASIDs and ids; the scheduler |
| ByteMoves.dfy, Print.dfy | memcpy, memset, print_num |
| Trap.dfy, Nesting.dfy | SAVE_ALL and RESTORE_ALL on a register machine; nested traps |

**Environments.** The env table (free list, statuses, ids, the ASID bitmap as 32-bit words), the weighted round robin,
and the intrusive queues they are built on. A queue head and a queue entry have the same two fields, which is what
the cast in TAILQ_LAST relies on; both are a `Link` here, and a pointer to a `next` field is the link that holds it.

**Loader and byte movers.** elf_load_seg with load_icode_mapper on the memory model; memcpy and memset on a byte array
with their word loops; print_num on its buffer.

**Traps.** The two macros are lists of instructions, executed by `Trap.Machine` in place and by `Trap.Run` as a
function; a trap handler is a tree of kernel code and further traps.

## Modelling conventions

* C words are `Word`, natural numbers below 2^64, and the additions of the source that can wrap do so here. Shifts and
  masks are division and remainder by powers of two; or-ing a page number field with flags is addition.
* `panic` ends a routine with `Panicked(site)`. The state is then whatever was reached.
* sfence_vma, satp and printk have no effect on the state. kernel_pagetable is a parameter.
* In the memory part clearing a page is one step, and bytes are copied into a page one at a time; that memset and
  memcpy themselves do that is proved in `ByteMoves`.
* The mapper callback of elf_load_seg is load_icode_mapper, its only instance.

## What the code turns out to do

Where the code and its comments or its apparent intent differ, the model follows the code.

* uvmunmap looks up `va`, not `a`, in each turn of its loop (kern/vm.c:167-168): with two or more pages it always
  panics, at the second turn at the latest. So uvmdealloc by two pages or more never returns, uvmalloc that runs out
  of memory after two pages never returns, kvm_copy_to_user_pagetable never returns -1, and env_free never gets past
  its first line of work.
- The self-map entry of env_setup_vm has R set (kern/env.c:183). Software that follows entries by V finds the tables
  there, but the processor reads a 1 GiB leaf at an address that is not a multiple of 1 GiB, and faults on every page
  of the window.
- UVPT (include/mmu.h:40) is not the base of that window but its last page, and it is never mapped. The window
  also swallows the pages of ENVS: after env_setup_vm none of them is mapped in the env's table.
- env_init inserts envs[NENV] too, one slot beyond the array (kern/env.c:161). It is never handed out: the 256 ASIDs run
  out first, and the free list is last-in-first-out.
- mappages covers the page of `va + size - 1` as well (kern/vm.c:123-124), so load_icode_mapper maps two pages for an
  unaligned address. An unaligned segment therefore loads only when its first part is all there is; otherwise the next
  call panics with "remap".
- kvmcreate maps one page beyond PHYEND exactly when etext is not page aligned (kern/vm.c:33).
- memcpy is not memmove: it copies the source exactly when the destination does not start inside it, or the source
  happens to repeat itself with the distance of the two as period.
- freewalk takes any valid entry without R, W, X for a table, also at the last level; a page mapped with permission 0 would be
  walked as if it were one.
- uvmdealloc passes its page count through an int. It asks for the pages between the two sizes exactly when their number is
  below 2^31 or at least 2^52 - 2^31; shrinking from 2^44 to 0, for one, returns with nothing unmapped.
- Two env ids are equal exactly when they were made for the same slot a multiple of 2^21 calls of mkenvid apart. The id is 0,
  which envid2env reads as the current env, exactly for slot 0 when the counter is a multiple of 2^21.
- do_ebreak adds 2 whatever the length of the ebreak (kern/traps.c:33); a four-byte ebreak resumes in its own middle.

## Model

| member | source | states |
|---|---|---|
| Mmu.VpnOfPage | include/mmu.h:58-59 | the index macro at each level depends on the page number only |
| Mmu.IdxInjective | include/mmu.h:58-59 | below MAXVA the three indices determine the page, and the top one is below 256 |
| Mmu.EnvsVa | include/mmu.h:40-42 | ENVS(i) is a page, the i+1-th below UVPT |
| Mmu.RoundIs | include/types.h:20 | ROUND rounds up, except in the last page of the address space, where it gives zero |
| Bits.PutBitRead | include/registers.h:47-51 | setting or clearing one bit of a word changes that bit only |
| Bits.SameBits | include/registers.h:47-51 | a word is determined by its bits |
| Bits.BitAt | include/registers.h:47-51 | bit k is the last binary digit of what remains of a word above its k low bits |
| Bits.ByteAt | kern/env.c:269 | byte k is the last base-256 digit of what remains of a word above its k low bytes: the least significant byte comes first |
| Bits.SetByteRead | kern/env.c:269 | storing a byte into a word changes that byte only |
| Mmu.PteRoundTrip | include/mmu.h:84-96 | PTE2PA after PA2PTE with flags gives the page of the address back |
| Mmu.OrRUIsLeaf | kern/vm.c:200 | PTE_R, PTE_U or-ed into any permission make a leaf, never a bare V |
| Bits.FlagTests | include/mmu.h:84-89 | the tests for R, W, X and U look at bits 1 to 4, and the test of freewalk at bits 1 to 3 together |
| Bits.OrRUBits | kern/vm.c:200 | or-ing V, R and U into a permission sets bits 0, 1 and 4 and keeps every other bit of it |
| Bits.MaskBits | lib/elfloader.c:30-33 | a permission put together from the masks has exactly the bits of those masks |
| PageTable.WalkKinds | kern/vm.c:55-82 | the tables on a walk are the level 1 and level 0 tables that name their slots as parents |
| PageTable.SlotUnique | kern/vm.c:55-82 | two walks, in the same or different tables, reach the same entry only for the same page of the same root |
| PageTable.TransFrame | kern/vm.c:55-82 | a translation depends on table pages only |
| PageTable.TakeKeepsInv | kern/phypage.c:34-42 | taking a page keeps the invariant, all translations and all data pages |
| PageTable.GiveKeepsFreeList | kern/phypage.c:45-56 | pushing a page keeps the list threaded through the pages a chain of distinct free pages |
| PageTable.GiveKeepsMaps | kern/phypage.c:45-56 | giving a data page back keeps the invariant and all translations |
| PageTable.AttachKeepsInv | kern/vm.c:73-74 | linking an empty table into an invalid slot keeps the invariant and every translation of every table |
| PageTable.WalkGrows | kern/vm.c:68-74 | one allocating step of walk: no translation changes, the new table is found on the next level, pages are conserved |
| PageTable.SetLeafRemaps | kern/vm.c:148 | writing the entry a walk found changes the translation of exactly that page of that table |
| PageTable.MapStep | kern/vm.c:141-155 | one turn of mappages extends the mapped range by one page and leaves all else |
| PageTable.UvmcreateStep | kern/vm.c:223-230 | a fresh zeroed page is an empty table, disjoint from all others |
| Vm.Kernel.Kalloc | kern/phypage.c:34-42 | 0 and no change if the list is empty, otherwise its first page, zeroed, and the rest of the list |
| Vm.Kernel.Kfree | kern/phypage.c:45-56 | panics exactly for a bad address; otherwise word 0 of the page is the old head, words 1 to 511 are zero, and the page becomes the head of the list, and freeing a data page keeps the invariant and every translation |
| Vm.Kernel.Freerange | kern/phypage.c:23-29 | for any range the whole pages are freed in order, highest first in the list, up to the first one outside [KERNEND, PHYEND), at which it panics; with exactly the ranges for which it returns |
| Vm.Kernel.Kinit | kern/phypage.c:19-21 | from boot, all 31744 pages of [KERNEND, PHYEND) are free, highest first |
| Vm.Kernel.AddTable | kern/vm.c:69-74 | the allocating branch of walk: 0 if there is no page, otherwise the page is cleared and linked |
| Vm.Kernel.Walk | kern/vm.c:55-82 | returns the entry of the flat map's page, or null exactly when a table is missing; without alloc also inside the window of a self-map; never changes a translation or a data page, also when memory runs out half way; page count conserved |
| Vm.Kernel.Lookup | kern/vm.c:88-102 | the physical page exactly when the page is mapped with U, else 0, inside the window of a self-map too; the state is unchanged |
| Vm.Kernel.Mappages | kern/vm.c:117-157 | on 0 exactly the pages from ROUNDDOWN(va) to ROUNDDOWN(va+size-1) are added, each to its pa with perm or V; every other page of every table keeps its translation; -1 only when memory ran out; remap panic exactly at a mapped page, walk panic at MAXVA |
| Vm.Kernel.Kvmmap | kern/vm.c:106-112 | mappages, with -1 turned into a panic |
| Vm.Kernel.Uvmcreate | kern/vm.c:223-230 | 0 if there is no page, otherwise an empty table; nothing else is remapped |
| Vm.Kernel.Uvmunmap | kern/vm.c:163-182 | zero pages: nothing; one page: exactly that page unmapped and freed if asked; two or more: always a panic, "not mapped" unless the first turn already panics |
| Vm.Kernel.Uvmdealloc | kern/vm.c:211-220 | for any two sizes: as uvmunmap for the number of turns the page count, passed through an int, comes to |
| UserMemory.DropCount | kern/vm.c:215-217 | uvmdealloc asks for the pages between the rounded sizes if and only if their number n is below 2^31 or at least 2^52 - 2^31 |
| UserMemory.DropNothing | kern/vm.c:215-217 | an input that fails it: from 2^44 to 0 no page is unmapped |
| Vm.Kernel.Uvmalloc | kern/vm.c:187-207 | for any two sizes: on success every page of [ROUND(old), new) is mapped to a fresh, distinct, zeroed page and nothing else is remapped; there the processor finds it with V, R, U, the bits of perm and no other; out of memory: 0 with every translation, every page in use and its contents as before, and every page free before free again or a table of the tree, if at most one page was added, else a panic; a mapped page in the range: remap panic; beyond MAXVA: walk panic |
| Vm.Kernel.GrowOne | kern/vm.c:193-205 | one turn of the loop: a fresh zeroed page behind the next virtual page, or no memory and everything as before the turn |
| Vm.Kernel.GiveUp | kern/vm.c:196-203 | undoing a growth of one page restores the flat map and frees the page; of two or more it panics |
| UserMemory.UnmapStep | kern/vm.c:168-178 | the first turn of uvmunmap unmaps exactly one page of one table and keeps the invariant |
| UserMemory.BackStep | kern/vm.c:193-205 | one turn of uvmalloc adds one fresh page behind the next virtual page and nothing else |
| UserMemory.BackedHw | kern/vm.c:193-205 | the processor finds each page grown where the flat map has it, with the bits asked for |
| UserMemory.BackFailed | kern/vm.c:200-203 | if mappages fails, giving the page back leaves the growth so far as it was |
| UserMemory.BackedThenUnmapped | kern/vm.c:187-220 | growing by one page and shrinking back restores every translation and frees the data page |
| UserMemory.BackedRange | kern/vm.c:211-217 | shrinking a growth back unmaps as many pages as were added, starting at a page that is mapped and held |
| Accounting.GrowThenShrink | kern/vm.c:187-220 | a caller's uvmalloc(old, new) followed by uvmdealloc(new, old), for any old < new up to MAXVA: by at most one page every translation and every page in use is as before and the page is free again; by two or more it panics |
| UserMemory.CopyStep | kern/vm.c:272-274 | one turn of the copy extends the agreement of the two tables by one page |
| Vm.Kernel.Freewalk | kern/vm.c:235-247 | returns exactly when the tree has no leaf; then every table of the tree, and no other page, has been freed, once |
| Teardown.DetachReady | kern/vm.c:236-239 | a child table, cut off, is a tree of its own that meets what freewalk demands |
| Teardown.FreeingAdvance | kern/vm.c:239-240 | after the recursive call and the store of 0, one entry more of the table is done |
| Teardown.FreeingDone | kern/vm.c:246 | when all entries are done, freeing the table itself completes the tree, and it had no leaf |
| Teardown.FreedKeepsInv | kern/vm.c:235-247 | freeing the tree of a root leads back to a state that meets the invariant |
| Teardown.FreedKeepsMaps | kern/vm.c:235-247 | freeing one tree leaves the translations of all other tables alone |
| Vm.Kernel.KvmCopyToUserPagetable | kern/vm.c:259-281 | if it returns, it returns 0 and the user table maps every page of [0x80000000, MAXVA) as the kernel table does and nothing else new; never the remap panic; a panic only with no free page left, and then no other table has changed |
| Accounting.PageCount | include/mmu.h:31-34 | the allocator governs 31744 pages |
| Accounting.PagesPartitioned | kern/phypage.c:23-56 | whenever the invariant holds the free list lists the free pages, each once, and free pages, tables and pages in other use add up to 31744; which pages are in use is in `MemoryRun.Run` |
| Accounting.FreeNeverWalked | kern/phypage.c:34-56 | the links in memory from kmem.freelist visit distinct pages and end in 0, and no walk from any root, in a self-map window too, meets one of them |
| Accounting.TablesReachable | kern/vm.c:62-81 | every table, also one linked by a walk that failed, is found by walking from its root |
| Accounting.GrowthAccounted | kern/vm.c:55-82 | growing a tree moves pages from the free list into the tree and nowhere else |
| Accounting.FreshTree | kern/vm.c:223-230 | uvmcreate takes one page, which is a tree by itself |
| Accounting.CreateGrowFree | kern/vm.c:223-247 | uvmcreate, walks with alloc for any addresses (also when memory runs out on the way), freewalk: freewalk returns, and the set of free pages is what it was |
| Accounting.TornDown | kern/vm.c:235-247 | the tables freed are exactly the root and what was grown |
| Accounting.FlatTearable | kern/vm.c:236-245 | a root whose mappings all have R, W or X meets what freewalk demands, and without mappings its tree has no leaf |
| Accounting.TearableIffRwx | kern/vm.c:238-245 | freewalk's demand on a tree holds if and only if every mapping of the flat map has one of R, W, X |
| Accounting.BareLeafWalked | kern/vm.c:238-239 | an input that fails it: a held page mapped with permission 0 is an entry that freewalk takes for a table |
| MemoryRun.Run | kern/phypage.c:34-56 | after any run of kalloc, kfree of held pages, uvmcreate, walk, mappages, uvmalloc and freewalk from the state kinit leaves, cut short at most by a panic: every page of [KERNEND, PHYEND) is on the free list, or held by the client, or was taken by uvmalloc and is mapped by one of the client's tables, or is a table in the tree of exactly one of the client's roots, and never two of these |
| MemoryRun.LedgerIsComplete | kern/phypage.c:34-56 | the bookkeeping every call keeps covers all 31744 pages without overlap |
| MemoryRun.DoAlloc | kern/phypage.c:34-42 | the page kalloc gave is now held, and nothing else changed hands |
| MemoryRun.DoRelease | kern/phypage.c:45-56 | the page is on the free list and no longer held, and nothing else changed hands |
| MemoryRun.DoCreate | kern/vm.c:223-230 | the new table is a root of the client with a tree of its own |
| MemoryRun.DoVisit | kern/vm.c:55-82 | pages walk takes, also before it runs out of memory, are tables of that root's tree |
| MemoryRun.DoMap | kern/vm.c:117-157 | so are those mappages takes; what uvmalloc mapped stays mapped |
| MemoryRun.DoGrow | kern/vm.c:187-207 | pages uvmalloc takes are mapped by that root or are tables of its tree; on failure they are free again or tables |
| MemoryRun.DoTearDown | kern/vm.c:235-247 | the tables of that tree are free, and the client's other trees, pages and mappings are as they were |
| MemoryRun.TearDownLedger | kern/vm.c:235-247 | tearing one table down leaves the client's other tables and pages as they were |
| Sv39.LinkIsPointer | kern/vm.c:74 | the entry walk writes for a new table is a pointer to it for the hardware |
| Sv39.HwFollowsLink | kern/vm.c:62-66 | at the upper levels the hardware takes the same step as walk |
| Sv39.HardwareAgrees | kern/vm.c:55-82 | for every page outside a cut slot the Sv39 translation is the flat map's, and a fault exactly where that has none, reserved flags or an address beyond 56 bits |
| Sv39.FlatIsHw | kern/vm.c:148 | a page mapped with R, or with X and not W, is one the processor finds, at that address with those bits |
| Boot.MapNext | kern/vm.c:106-112 | a kvmmap of kvmcreate meets only unmapped pages and extends the kernel map by exactly its range |
| Boot.ClintNext | kern/vm.c:20 | the timer range is disjoint from what is mapped so far |
| Boot.UartNext | kern/vm.c:21 | so is the UART page |
| Boot.VirtioNext | kern/vm.c:24 | so is the virtio page |
| Boot.PlicNext | kern/vm.c:27 | the interrupt controller range is disjoint from what is mapped so far |
| Boot.TextNext | kern/vm.c:30 | the text range, rounded up, is disjoint from what is mapped so far |
| Boot.DataNext | kern/vm.c:33 | the data range starts after the text and ends at PHYEND, one page later if etext is unaligned |
| Boot.KernelMapIsHw | kern/vm.c:15-38 | the processor finds the text readable, executable and not writable, data, devices and env structures readable, writable and not executable, none of it open to user mode, and faults everywhere else |
| Boot.EnvRangeFree | kern/env.c:38-39 | each ENVS page is still unmapped when its turn comes |
| Boot.EnvCreateEnvs | kern/env.c:29-42 | 1024 distinct fresh pages are mapped at ENVS(0), ENVS(1), ... and nothing else is remapped |
| Boot.Kvmcreate | kern/vm.c:15-38 | for every etext in (0x80000000, PHYEND) and enough free pages it returns a table with exactly the stated map, in the flat map and for the processor, hence no remap panic |
| EnvVm.SelfIsUvptSlot | include/mmu.h:40 | UVPT has indices 254, 511, 511: the last page of the window of slot 254 |
| EnvVm.SelfMapKeepsInv | kern/env.c:183 | overwriting the root slot keeps the invariant, with that slot and the tables it held set apart |
| EnvVm.SelfMapKeepsTrans | kern/env.c:183 | every page outside the window, of every table, keeps its translation |
| EnvVm.SelfMapWindow | kern/env.c:183 | inside the window the walk of (slot, a, b) returns entry b of the table in root slot a |
| EnvVm.SelfMapLoops | kern/env.c:183 | the self-map slot leads back to the root, so walk and lookup may be called inside the window |
| EnvVm.UvptAndEnvsUnmapped | include/mmu.h:40-42 | after the self-map neither UVPT nor any ENVS page is mapped |
| EnvVm.SelfMapFaults | kern/env.c:183 | the processor faults on every page of the window |
| EnvVm.EnvTableBuilt | kern/env.c:170-185 | copy and self-map together give the promised env table and leave other tables and data pages alone |
| EnvVm.EnvSetupVm | kern/env.c:170-185 | -E_NO_MEM exactly when there is no page at all; on 0 the table agrees with the kernel table on [0x80000000, MAXVA) outside the window, maps nothing below, its entry 254 points to the table itself with V, R and U, it maps neither UVPT nor any ENVS page, and can be walked inside the window; otherwise memory ran out and the clean-up panicked, with all older tables as they were |
| EnvVm.EnvFreeVm | kern/env.c:346-347 | the VM part of env_free never returns |
| Startup.Start | init/init.c:33-52 | kinit, kvmcreate and any number of env_setup_vm in a row: at the end, and also when it stops early, which is only with no page left, the kernel table still is exactly the kernel map and every env table made agrees with it from 0x80000000 on and is empty below, for the flat map and for the processor |
| Loader.CopyIn | kern/env.c:269 | copying into a data page changes exactly the bytes [offset, offset+len) of it, and no translation |
| Loader.LoadIcodeMapper | kern/env.c:256-275 | a fresh page with zeros and the bytes given is mapped at va's page, and at the next one too when va is unaligned; panics only where a page was mapped; -1 only with fewer than five free pages |
| Loader.OnePageRange | kern/vm.c:123-124 | a page-sized range covers one page if aligned and two if not |
| Loader.MapChunk | lib/elfloader.c:46-59 | a loop turn loads the next page of an aligned segment unless it is mapped, which is a remap panic; for an unaligned segment it always panics |
| Loader.FirstCall | lib/elfloader.c:38-43 | the call for an unaligned start maps both pages around the boundary to consecutive addresses |
| Loader.SegPermBits | lib/elfloader.c:30-33 | the permission of a segment is V, R, X and U, with W exactly for a writable one, and no other bit |
| Loader.LoadedHw | lib/elfloader.c:46-59 | the processor reaches every page loaded of an aligned segment, at the physical page that holds its bytes |
| Loader.LoadedUnalignedHw | lib/elfloader.c:38-43 | and both pages around the boundary of an unaligned one |
| Loader.ElfLoadSeg | lib/elfloader.c:25-61 | returns 0 if and only if none of the pages it touches is mapped and, for an unaligned start, the first part is the whole segment; every failure is the remap panic. For the processor each page then leads to the physical page loaded, with V, R, X, U, and W exactly for a writable segment. Aligned: exactly the pages of [p_vaddr, p_vaddr+max(p_memsz, p_filesz)) are mapped, each once, to fresh pages with the file's bytes and then zeros. Unaligned: two pages are mapped, nothing else is remapped, and the first holds the bytes |
| Queue.ListUnique | include/queue.h:61-73 | the links of a list determine its sequence of elements |
| Queue.ListInsertHead | include/queue.h:142-148 | the list is the element followed by the old list, with correct back links |
| Queue.ListRemove | include/queue.h:156-161 | the list without that element |
| Queue.TailqInit | include/queue.h:186-190 | an empty queue |
| Queue.TailqInsertHead | include/queue.h:192-200 | as for sequences, with every tqe_prev and tqh_last right |
| Queue.TailqInsertTail | include/queue.h:202-208 | as for sequences |
| Queue.TailqInsertAfter | include/queue.h:210-218 | as for sequences |
| Queue.TailqInsertBefore | include/queue.h:220-226 | as for sequences, without being given the head |
| Queue.TailqRemove | include/queue.h:228-235 | as for sequences |
| Queue.TailqConcat | include/queue.h:244-252 | the first queue becomes the concatenation, the second empty |
| Queue.TailqLast | include/queue.h:261 | the cast yields the last element, or NULL if there is none |
| Queue.TailqPrev | include/queue.h:262 | the cast yields the predecessor, or NULL for the first |
| Queue.TailqForeach | include/queue.h:237-238 | visits the sequence |
| Queue.TailqForeachReverse | include/queue.h:240-242 | visits the reverse of the sequence |
| EnvTable.MarkRead | kern/env.c:51-77 | setting or clearing one ASID's bit leaves all others |
| EnvTable.Envs.EnvInit | kern/env.c:149-164 | the free list is 0, 1, ..., NENV: 1025 entries |
| EnvTable.Envs.AsidAlloc | kern/env.c:51-62 | the lowest free ASID, marked, or the error exactly when all 256 are in use |
| EnvTable.Envs.AsidFree | kern/env.c:73-77 | that ASID is free and no other changes |
| EnvTable.Envs.Mkenvid | kern/env.c:88-91 | the id is the 32-bit counter shifted by 11, with the index below |
| EnvTable.EnvIdParts | kern/env.c:88-91 | below 2^21 generations the counter and the index can be read back from an id |
| EnvTable.EnvIdAlways | kern/env.c:88-91 | in general an id holds its counter modulo 2^21, and its index |
| EnvTable.Envs.EnvAlloc | kern/env.c:200-237 | on success the first free slot becomes a new env: the parent given, no runs, sstatus with bit 5 set and no other, sp 12 bytes below the user stack top, runnable, the lowest free ASID, the next id; no other env changes. -4 exactly when env_setup_vm failed, with no change; -6 exactly when that went well and all ASIDs are in use (env_id and env_runs of the slot have then already changed); keeps the invariant |
| EnvTable.AllocCases | kern/env.c:200-237 | the same for the function on table states that runs of calls are made of |
| EnvTable.Envs.EnvFree | kern/env.c:348-355 | after the VM part: the slot heads the free list and is free, its other fields and all other envs are as they were, and its ASID and no other is unmarked; keeps the invariant |
| EnvTable.Envs.Envid2env | kern/env.c:106-140 | for a nonzero id: succeeds exactly for the current id of a live env that is, with checkperm, the current env or its child, and returns that env |
| EnvTable.LookupExact | kern/env.c:119-123 | the same as a statement about all ids |
| EnvTable.RoomLeft | kern/env.c:205-233 | if an ASID is free and only fresh slots are, fewer than 256 slots were ever used |
| EnvTable.LiveBelow | kern/env.c:205-233 | a live env lies below the number of slots ever used, which is at most 256 |
| EnvTable.AllocKeepsOk | kern/env.c:200-237 | env_alloc keeps the invariant and advances the used slots by at most one |
| EnvTable.FreeKeepsOk | kern/env.c:348-355 | env_free keeps it |
| EnvTable.BootIsSound | kern/env.c:149-164 | env_init establishes it |
| EnvTable.RunsAreSound | kern/env.c:200-233 | after any run the ASIDs in use are exactly those of live envs, pairwise distinct, and every live env has an index below 256, so envs[NENV] is never handed out |
| EnvTable.StepIds | kern/env.c:88-91 | the counter advances exactly when env_alloc reaches mkenvid; the id made is newer than all ids in the table, and only the slot allocated changes its id |
| EnvTable.IssuedIncrease | kern/env.c:88-91 | over any run with fewer than 2^21 mkenvid calls the counters in the ids increase, and the table's ids are in order at the end |
| EnvTable.IssuedAt | kern/env.c:88-91 | over any run of any length the k-th id made carries the counter's value then, modulo 2^21 |
| EnvTable.IdsEqualIff | kern/env.c:88-91 | over any run two ids made are equal if and only if they are for the same slot and a multiple of 2^21 calls apart |
| EnvTable.IdZeroIff | kern/env.c:88-91 | an id made is 0 if and only if it is for slot 0 and the counter is a multiple of 2^21 |
| EnvTable.SlotsAlways | kern/env.c:88-91 | over any run every id in the table names its slot, which is what envid2env relies on |
| EnvTable.IdsNeverRepeat | kern/env.c:88-91 | over any run with at most 2^21 mkenvid calls, however many other steps, the ids made are pairwise different, and before the counter reaches 2^21 they are nonzero |
| EnvTable.StaleStaysStale | kern/env.c:119-123 | over any run with the counter below 2^21 an id that has stopped being valid stays rejected |
| EnvTable.StaleUnlessReissued | kern/env.c:119-123 | over any run of any length a rejected id is accepted later only if mkenvid made it again |
| Sched.Scheduler.Create | kern/env.c:326-332 | the new env heads the queue, with the priority given and no runs, and is runnable; all else is as it was |
| Sched.CreatedIsBooting | kern/env.c:326-332 | creating a new env with priority at least 1 leads from one state before scheduling to another |
| Sched.BootOrder | init/init.c:51-52 | after any calls of env_create the queue is the reverse of the order of the calls, each env with the priority it was given |
| Sched.BootIsOk | kern/sched.c:20-22 | before the first schedule call the invariant holds and the counting of shares can start |
| Sched.Scheduler.EnvRun | kern/env.c:390-412 | makes the env current and counts the run, or panics if it is not runnable |
| Sched.Scheduler.DoSchedule | kern/sched.c:18-54 | the whole new state of queue, count, curenv and env_runs, or the panic; a call that returns adds one run to the env it picks and to no other |
| Sched.Scheduler.EnvDestroy | kern/env.c:361-371 | the env leaves its place in the queue and the others keep their order; if it was current the next in the queue runs, with its priority less one slices left, or the kernel panics if there is none; else nothing more changes |
| Sched.DestroyCases | kern/env.c:361-371 | the same for the function that runs of steps are made of |
| Sched.ScheduleCases | kern/sched.c:41-53 | either the head goes on with one slice less, or the next in the queue starts with its priority less one; the env picked has run once more, by schedule(0) or schedule(1), and no other; panics exactly when the queue is empty |
| Sched.TurnsInOrder | kern/sched.c:41-53 | from boot, call t+1 of schedule(0) is slice o of env i in round q, where t is q times the total plus the priorities before i plus o: slices are consecutive and turns follow the queue |
| Sched.BootTurns | init/init.c:51-52 | from the calls of env_create on: call t+1 of schedule(0) runs the env created i before the last, for slice o of round q, where t is q times the sum of all priorities plus those of the envs created after it plus o |
| Sched.LastCreatedFirst | kern/env.c:332 | the first schedule call runs the env created last |
| Sched.ExactShare | kern/sched.c:21-53 | after k times the sum of priorities calls every env has run exactly k times its priority |
| Sched.YieldMovesOn | kern/sched.c:9-11 | schedule(1) picks another env than curenv whenever another one is runnable |
| Sched.StepKeepsOk | kern/sched.c:41-53 | under schedule(0), schedule(1) and env_destroy the queue is duplicate-free, holds exactly the runnable envs, and curenv is NULL or its head |
| Sched.RunKeepsOk | kern/sched.c:41-53 | so does any run of these steps, and the only panic is that no env is runnable |
| Sched.CurrentHeadsQueue | kern/sched.c:41-53 | from boot, with any envs created, and over any run: curenv is NULL or the head of the queue, which holds exactly the runnable envs |
| Sched.ScheduleProgress | kern/sched.c:41-53 | every schedule call brings a waiting runnable env strictly nearer |
| Sched.BoundedWaiting | kern/sched.c:41-53 | a waiting runnable env runs within count plus the priorities ahead of it plus one schedule calls, whatever the mix of calls and destroyed envs |
| ByteMoves.Memcpy | lib/string.c:3-30 | for all alignments, overlaps and lengths the result is that of the forward byte loop |
| ByteMoves.WordIsFourBytes | lib/string.c:19-23 | moving a word between equally aligned places is moving its four bytes in order, also when they overlap |
| ByteMoves.CopyResult | lib/string.c:3-30 | what each byte of memory is after the forward loop; bytes outside the destination are unchanged |
| ByteMoves.MovesExactly | lib/string.c:3-30 | the destination is the old source if and only if it does not start inside the source or the source is periodic with their distance |
| ByteMoves.FourBytes | lib/string.c:36 | the 32-bit word memset stores is its byte four times |
| ByteMoves.Memset | lib/string.c:32-53 | exactly the n bytes are the low byte of c, all others unchanged |
| Print.PutDigits | lib/print.c:228-238 | the digit loop leaves the digits reversed, at most 64 of them |
| Print.LayOut | lib/print.c:240-263 | sign and padding behind the digits, within the buffer |
| Print.ReversePrefix | lib/print.c:265-281 | the swap loop reverses exactly the prefix it is given |
| Print.PrintNum | lib/print.c:211-284 | the output is the number right-adjusted with the padding character or left-adjusted with spaces, the minus sign before zero padding; digits are upper-case only if asked for and lower-case only if not; left-adjusted output begins and other output ends with the number; every index stays inside the width+70 buffer |
| Print.DigitsValue | lib/print.c:228-238 | the digits of u in any base from 2 to 16 read back as u |
| Print.DigitsUnique | lib/print.c:228-238 | the digits are the only string in the case asked for, with digits of the base and no zero in front, that reads as u |
| Print.FormatCase | lib/print.c:231-236 | no digit of the wrong case anywhere in the output |
| Print.Width | lib/print.c:244-248 | the output has max(width, digits and sign) characters |
| Print.ReadsBack | lib/print.c:211-284 | for every number, base, width, adjustment and padding with blanks or zeros the output reads back as the signed value |
| Trap.Machine.Exec | kern/kexcentry.S:5-11 | one instruction in place is one step of the function |
| Trap.Machine.Execute | kern/kexcentry.S:13-60 | executing a text in place is running it |
| Trap.Machine.SaveAll | kern/kexcentry.S:13-60 | the frame below the chosen stack holds x1 to x31 and the four control registers as they were, nothing else in memory changes, and sscratch is zero |
| Trap.SaveAllEffect | kern/kexcentry.S:13-60 | the same as a statement about all machine states |
| Trap.StoreBlock | kern/kexcentry.S:20-49 | the block of stores writes each register to its own slot and nothing else |
| Trap.Machine.RestoreAll | kern/genex.S:15-58 | x1 to x31, sstatus and sepc come from the frame; sscratch becomes the end of the frame when the frame's SPP bit is clear and is unchanged otherwise |
| Trap.RestoreAllEffect | kern/genex.S:15-58 | the same as a statement about all machine states |
| Nesting.Dispatch | kern/kexcentry.S:67-85 | which causes reach do_ebreak and the scheduler, exactly, and which lie beyond the table |
| Nesting.StatusRestored | kern/genex.S:32-33 | on entry bit 5 takes the value of bit 1, bit 1 is cleared and bit 8 says whether the kernel was interrupted; after sret sstatus is as it was except that bit 5 is set and bit 8 cleared |
| Nesting.TrapReturns | kern/genex.S:15-82 | for every legal handler, whatever traps nest inside it, the interrupted code gets back x1 to x31, its mode, sscratch and its stack, and resumes two bytes after the ebreak |
| Nesting.BodyKeeps | kern/traps.c:30-34 | while kernel code and nested traps run, sscratch stays zero, and everything at and above the handler's stack pointer is kept |
| Nesting.FramesBelow | kern/kexcentry.S:19-19 | every frame opened inside a handler lies wholly below the stack of the handler |
| Nesting.LiveFramesDisjoint | kern/kexcentry.S:19-19 | the frames live at any one moment are disjoint 288-byte blocks, each below the one before |
| Nesting.ScratchZeroInKernel | kern/kexcentry.S:50-50 | at every point where kernel code runs, at every depth, sscratch is zero and interrupts are off |
| Nesting.TrapKeepsDiscipline | kern/kexcentry.S:13-60 | for a whole trap tree: at every moment the outermost frame and all live frames inside are pairwise disjoint 288-byte blocks, one below the other, sscratch is zero inside, and on return to user it is the end of the kernel stack again |

## Left out

- Vm.Kernel.Walk: with alloc, the window of a self-map is excluded; there the tables built would hang from the root one level too high. Root slots cut for another reason do not occur between calls.
- Vm.Kernel.Mappages: permissions are below 1024, since the source would or larger ones into the page number; the window of a self-map is excluded as for walk.
- Vm.Kernel.Kvmmap: as mappages.
- Vm.Kernel.Kfree: the page is not already free and no table hangs from it or holds it; the code does not check that.
- Vm.Kernel.Uvmunmap: a page that do_free gives back is one that was handed out; the code does not check that.
- Vm.Kernel.Uvmdealloc: as uvmunmap.
- Vm.Kernel.Freewalk: every leaf under the table has R, W or X set; what happens otherwise depends on the contents of the page that is then walked (`Accounting.BareLeafWalked`).
- MemoryRun.Run: uvmdealloc is not among the calls, because with mappages a client can map pages it does not hold; mappings carry R, W or X.
- Boot.Kvmcreate: enough free pages are required, so the panics for missing memory are not reached.
- Loader.LoadIcodeMapper: at least one free page is required, since the code does not look at what kalloc returns and would write to address 0.
- Loader.ElfLoadSeg: enough free pages are required, for the same reason.
- EnvTable.Envs.EnvAlloc: whether env_setup_vm succeeds is an input here; what it builds is in `EnvVm`. The status that env_create sets right after is set here. The free list is a sequence here; that the LIST macros are sequence operations is proved in `Queue`.
- EnvTable.Envs.EnvFree: starts after the VM part, which by `EnvVm.EnvFreeVm` never returns; the removal from env_sched_list is in `Sched.Scheduler.EnvDestroy`.
- Sched.BoundedWaiting: priorities are at least 1; with priority 0 the static count passes below zero.
- Sched.Scheduler.EnvDestroy: the VM part of env_free is a step that returns.
- Sched.Scheduler.DoSchedule: the run queue is a sequence here; that the TAILQ macros are sequence operations is proved in `Queue`.
- ByteMoves.Memcpy: addresses do not wrap around 2^64.
- Print.ReadsBack: padding with blanks or zeros only; other padding characters are covered by `Print.PrintNum`.
- Nesting.TrapReturns: kernel code between entry and exit is any code that keeps the calling convention, which includes the dispatch through exception_handlers; the stack is assumed not to overflow; interrupts do not occur, as SIE is off.
- After the self-map the tables that hung in slot 254 belong to no tree (they keep their pages, which nothing frees); page accounting across env_free is not stated.
- env_create after a failed env_alloc: it does not look at the result (kern/env.c:325) and would go on with an unset pointer.
- env_setup_vm's panic for a copy that failed: the copy returns 0 or not at all, so that branch is dead and not written out.
- env_run's copy of the frame at KSTACKTOP and env_pop_tf: they do not match the frame layout that RESTORE_ALL leaves in sscratch.
- uvmfree: only calls uvmunmap and freewalk.
- IPC fields and ENV_NOT_RUNNABLE: not used by the kernel.
- elf_from, load_icode's loop over program headers, several segments in one page.
- vprintfmt and the other printing routines; strlen, strcpy, strcmp, strchr.
- LIST_INSERT_AFTER and LIST_INSERT_BEFORE: the TAILQ forms are the harder ones, and the kernel does not use them.
- Permission checks and the A and D bits of Sv39: `Sv39.HwTranslate` says where a page leads, not who may use it.
- do_reserved, timer and interrupt handlers, SBI calls, UART output, start-up assembly, tools/ and user/.
