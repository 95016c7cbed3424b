# JOS: pages, environments, fork, CPUs, files, pipes, heap and network ring

A Dafny 4.11 model of JOS, a small multiprocessor teaching kernel with user-level copy-on-write fork, a file server,
pipes, malloc and an E1000 driver, with proofs of what its shared data structures keep over whole runs. Everything is
checked by `dafny verify dfyconfig.toml`.

**Physical pages, page tables and environments** (`Mmu`, `Vm`, `Syscalls`, `KernelRepr`, `Kernel`). `Vm` sees memory
as a finite map from references (page-directory roots, page-directory entries, page-table entries, pinned uses) to
pages; the free pages are those nothing refers to, and a page's count is the number of references to it. `Syscalls`
gives each page, environment and IPC call as a function on that map and the environment table, with its error returns,
and proves that every run of calls, user stores and scheduling keeps the invariant. `Kernel` is the code: a machine
with PageInfo counts and links, page directories and tables as words in physical memory, and linked free lists. Each
of its methods is proved to compute the function it stands for, and `RunAll` lifts this to every run. The entry format
is that of 32-bit paging in section 4.3 of the Intel 64 and IA-32 Architectures Software Developer's Manual, Volume
3A.

**Copy-on-write fork** (`CowFork`, `DumbFork`, `ForkRuns`, `UserFork`). A second machine copies every private page on
fork and gives PTE_SHARE pages a common object; `DumbFork` shows that user/dumbfork.c implements its copying. The
copy-on-write machine is related to it mapping by mapping, and every run of forks, stores (with the fault handler),
allocations and exits keeps the relation, so no environment can tell the two apart. `UserFork` is lib/fork.c as loops
and system calls on the machine of `Kernel`.

**IPC and CPUs** (`Ipc`, `Smp`, `SmpRuns`, `Sched`, `SchedRuns`). `Ipc` is about runs of `Syscalls`: what lies between
two receives. `Smp` interleaves any number of CPUs between the steps of the code, from trap entry through the spin
lock, the zombie test, system calls, the scheduler's scan and env_run back to user mode or the hlt loop; the shared
state is that of `Syscalls`. `Sched` has the scan as a loop and when it ends, and `SchedRuns` bounded waiting over
runs of all CPUs.

**Files** (`FsImage`, `FsOwn`, `FsOps`, `BlockCache`, `FileServer`, `FileWrite`, `FileRuns`, `FsFormat`). An image is
a sequence of blocks of words; File structures, indirect blocks and the bitmap are words in it. `BlockCache` is the
disk with the mapped blocks and their dirty bits. `FileServer` and `FileWrite` are fs.c on that cache. What a reader
of a file sees is a byte for every position, zero where no block is allocated, and each operation is stated as its
effect on those bytes for all positions and all files. `FileRuns` shows that over any run the answers are those of
plain byte arrays. `FsFormat` builds the initial image.

**Smaller concurrent and arithmetic parts**: `Pipe` (the ring buffer), `PipeClosed` (closed detection by page counts),
`ReceiveRing` (the E1000 ring, section 3.2.6 of the PCI/PCI-X Family of Gigabit Ethernet Controllers Software
Developer's Manual), `StabSearch` (stab_binsearch) and `Malloc`.

Properties that turned out false of the code as it stands are stated with an input that shows it and the condition
under which they hold:

- `sys_env_set_status` ignores the old status, and `sys_env_destroy` frees a zombie that still runs
  (`Ipc.SetStatusWakes`, `SmpRuns.AllowedExactly`, `SmpRuns.RunOnTwoCpus`, `SmpRuns.WokenReceiver`,
  `SmpRuns.DestroyedTwice`).
- A page seen copy-on-write can be writable through the same mapping if it was allocated with both bits
  (`ForkRuns.CowNeverWritable`, `ForkRuns.BothBitsAllocated`).
- The scheduler's stop test never holds when the current environment is in the last slot (`Sched.EndsExactly`).
- A failed send clears the receiver's permission field (`Ipc.FailedSend`).
- Shrinking a file leaves old bytes in its last block (`FileWrite.ShrinkThenExtend`).
- The file server's fault handler panics unless a block is first touched at its start (`BlockCache.Cache.Fault`).
- fsformat with no files builds an image whose root directory points at a free block (`FsFormat.FormatEmpty`,
  `FsFormat.FormatServes`).
- A pipe can look closed while a fork is between a descriptor page and its data page (`PipeClosed.WrongAnswer`,
  `PipeClosed.ClosedSound`).
- A pipe's index leaves the buffer after 2^31 bytes (`Pipe.IndexExact`, `Pipe.WritesAt`, `Pipe.FitsInOff`).
- The driver delivers an empty packet if it reads a descriptor's length first and the write-back falls between that and
  its status (`ReceiveRing.DeliveredEmpty`, `ReceiveRing.InOrder`).
- stab_binsearch can go one entry too far (`StabSearch.OneTooFar`, `StabSearch.TooFarExactly`).
- malloc can leave the heap from its last page (`Malloc.LastPage`, `Malloc.Heap.Allocate`) and then fails an assertion
  in a later call (`Malloc.NextPanics`), the three largest sizes wrap (`Malloc.RoundCovers`), and a chunk of a whole
  number of pages leaves a page behind that is never unmapped (`Malloc.Heap.TakeRun`, `Malloc.LeftBehind`).
- A 16-bit reference count is exact only below 65536 references, and a wrapped one frees a page in use
  (`KernelRepr.CountFits`, `KernelRepr.FreedEarly`, `KernelRepr.FreedInUse`).

## Model

| member | source | states |
|---|---|---|
| Vm.AllocKeeps | kern/pmap.c:492-517 | Taking the first page of the free list keeps the reference map, the free list and the contents well-formed, and that page had no reference |
| Vm.ReleaseKeeps | kern/pmap.c:524-544 | Giving back a page that nothing refers to keeps the free list duplicate-free and exact |
| Vm.MakeRootKeeps | kern/env.c:176-217 | A page installed as a page directory keeps every page directory and page table unmapped for users |
| Vm.WalkKeeps | kern/pmap.c:587-641 | Creating a page table, or finding one, keeps the invariant; a new table takes the first free page |
| Vm.SetEntryKeeps | kern/pmap.c:716-764 | Replacing one leaf entry keeps the invariant and reclaims the old page exactly when this was its last reference |
| Vm.InsertKeeps | kern/pmap.c:716-764 | page_insert as a whole keeps the invariant for every page, address and permission |
| Vm.HoldKeeps | kern/pmap.c:716-764 | The extra reference page_insert takes before it removes the old mapping keeps the invariant |
| Vm.DropKeeps | kern/pmap.c:551-559 | Dropping one reference keeps the invariant; the page is free afterwards exactly if it was the last |
| Vm.DropLeavesKeeps | kern/env.c:504-519 | The inner loop of env_free, over the entries of one page table, keeps the invariant |
| Vm.DropTablesKeeps | kern/env.c:504-528 | The outer loop of env_free, over the user part of the page directory, keeps the invariant |
| Vm.DropSpaceExact | kern/env.c:486-534 | env_free reclaims exactly: all references of the environment go and no other, each page loses as many as the environment had, the pages free afterwards are those free before plus those only this environment held, and these include its directory and all its tables |
| Syscalls.EnvOf | kern/env.c:76-109 | envid2env names a live environment with exactly that id, and with the permission check only the caller or its child |
| Syscalls.NextId | kern/env.c:243-247 | A new id is positive, names its slot in its low ten bits and differs from the last id of the slot |
| Syscalls.EnvAllocKeeps | kern/env.c:228-298 | env_alloc keeps the environment table, its free list and the pages consistent |
| Syscalls.EnvFreeKeeps | kern/env.c:486-534 | env_free keeps them consistent and puts the slot on the free list once |
| Syscalls.InsertFrame | kern/pmap.c:716-764 | page_insert changes one mapping and at most adds its page table; all other entries and contents stay |
| Syscalls.Reinsert | kern/pmap.c:716-764 | Inserting the page already mapped there keeps its count, the free list and all contents and replaces the flag bits, which clears PTE_D |
| Syscalls.PageAllocKeeps | kern/syscall.c:238-280 | sys_page_alloc keeps the invariant on success and on each failure |
| Syscalls.PageMapKeeps | kern/syscall.c:299-369 | sys_page_map keeps the invariant on success and on each failure |
| Syscalls.PageUnmapKeeps | kern/syscall.c:379-403 | sys_page_unmap keeps the invariant |
| Syscalls.ExoforkKeeps | kern/syscall.c:86-115 | sys_exofork keeps the invariant |
| Syscalls.SetStatusKeeps | kern/syscall.c:125-148 | sys_env_set_status keeps the invariant |
| Syscalls.DestroyKeeps | kern/syscall.c:63-72 | sys_env_destroy keeps the invariant, whether it frees at once or leaves a zombie |
| Syscalls.IpcTrySendKeeps | kern/syscall.c:444-512 | sys_ipc_try_send keeps the invariant with and without a page |
| Syscalls.IpcRecvKeeps | kern/syscall.c:526-555 | sys_ipc_recv keeps the invariant |
| Syscalls.StepKeeps | kern/syscall.c:238-403 | Every call, user store, change of who runs and collection of a zombie keeps the invariant |
| Syscalls.RunKeeps | kern/syscall.c:238-403 | In every reachable state the free list has no duplicates and holds exactly the managed pages without references, page tables and directories are held once and are not mapped for users, and the free environment slots are exactly those listed |
| KernelRepr.ListPop | kern/pmap.c:492-517 | Taking the head of a list threaded through pp_link leaves a well-formed list |
| KernelRepr.ListPush | kern/pmap.c:524-544 | Pushing a page on the list threaded through pp_link gives the list with that page first |
| KernelRepr.RefsAfterHold | kern/pmap.c:716-764 | Incrementing pp_ref keeps all counts equal to the numbers of references |
| KernelRepr.RefsAfterDrop | kern/pmap.c:551-559 | Decrementing pp_ref keeps all counts equal to the numbers of references |
| KernelRepr.InsertByHold | kern/pmap.c:716-764 | Count first, remove the old mapping, then write the entry: this order gives the one-entry change even when the page is mapped there already |
| KernelRepr.WriteTableWord | kern/pmap.c:716-764 | Writing one page-table word changes one entry of the reference map and no other word shows a different entry |
| KernelRepr.WriteDirWord | kern/pmap.c:587-641 | Writing one page-directory word changes one page table's reference and nothing else |
| KernelRepr.NewDirectory | kern/env.c:176-217 | A page filled with the kernel's directory shows an address space without user mappings |
| KernelRepr.CountFits | inc/memlayout.h:183-190 | A 16-bit count stays exact when a reference is added if and only if the page had fewer than 65535 |
| KernelRepr.CrowdSize | kern/pmap.c:716-764 | For every n that one address space has room for, n calls of page_insert lead from a new address space to a state that satisfies the invariant and in which one page has exactly n references |
| KernelRepr.FreedEarly | kern/pmap.c:551-559 | page_decref frees a page that still has references if and only if their number is a multiple of 65536 |
| KernelRepr.FreedInUse | kern/pmap.c:551-559 | When one of n + 1 such mappings is removed the 16-bit count is 0 with n references left exactly when n is a multiple of 65536 |
| Kernel.PageInit | kern/pmap.c:397-474 | The loop threads exactly the allocatable pages, last page first, and links no other page |
| Kernel.EnvInit | kern/env.c:118-142 | The loop lists all slots in order, first slot first |
| Kernel.Machine.constructor | kern/pmap.c:397-474 | After start-up the machine is consistent, every slot is free and every allocatable page is on the free list |
| Kernel.Machine.PageAlloc | kern/pmap.c:492-517 | Refines taking the first free page; the page is zeroed, and None means the free list was empty |
| Kernel.Machine.PageFree | kern/pmap.c:524-544 | Refines giving back an unreferenced page |
| Kernel.Machine.PageDecref | kern/pmap.c:551-559 | Refines dropping one reference |
| Kernel.Machine.PgdirWalk | kern/pmap.c:587-641 | Refines finding or creating a page table; nothing changes when it fails or must not create |
| Kernel.Machine.PageLookup | kern/pmap.c:778-809 | Finds exactly the page mapped at the address, through both levels of the table in memory |
| Kernel.Machine.PageRemove | kern/pmap.c:827-863 | Refines deleting one mapping |
| Kernel.Machine.PageInsert | kern/pmap.c:716-764 | Refines the one-entry change; on -E_NO_MEM nothing changes |
| Kernel.Machine.EnvSetupVm | kern/env.c:176-217 | Refines installing a page directory |
| Kernel.Machine.EnvAlloc | kern/env.c:228-298 | Refines env_alloc with both error returns |
| Kernel.Machine.UnmapTable | kern/env.c:510-518 | The loop over one table refines dropping its leaves |
| Kernel.Machine.FreeSpace | kern/env.c:504-528 | The nested loops refine dropping the whole address space below UTOP |
| Kernel.Machine.EnvFree | kern/env.c:486-534 | Refines env_free |
| Kernel.Machine.EnvDestroy | kern/env.c:542-558 | Refines env_destroy: a zombie when it runs elsewhere, freed otherwise |
| Kernel.Machine.EnvId2Env | kern/env.c:76-109 | Computes the environment an id names, with the permission check |
| Kernel.Machine.SysExofork | kern/syscall.c:86-115 | Refines sys_exofork, result included |
| Kernel.Machine.SysEnvSetStatus | kern/syscall.c:125-148 | Refines sys_env_set_status, result included |
| Kernel.Machine.SysEnvDestroy | kern/syscall.c:63-72 | Refines sys_env_destroy, result included |
| Kernel.Machine.SysPageAlloc | kern/syscall.c:238-280 | Refines sys_page_alloc, result included; a page whose insertion fails goes back to the head of the free list |
| Kernel.Machine.SysPageMap | kern/syscall.c:299-369 | Refines sys_page_map, result included |
| Kernel.Machine.SysPageUnmap | kern/syscall.c:379-403 | Refines sys_page_unmap, result included |
| Kernel.Machine.SysIpcRecv | kern/syscall.c:526-555 | Refines sys_ipc_recv, result included |
| Kernel.Machine.SysIpcTrySend | kern/syscall.c:444-512 | Refines sys_ipc_try_send, result included |
| Kernel.Machine.StoreWord | kern/pmap.c:587-641 | A user store through the tables in memory refines the store on the mapped page and sets the accessed and dirty bits |
| Kernel.Machine.LoadWord | kern/pmap.c:587-641 | A user load through the tables in memory reads the mapped page's word |
| Kernel.Machine.LoadFlags | lib/fork.c:87-98 | Reading an entry at uvpt gives the flags of the mapping |
| Kernel.Machine.Exec | kern/syscall.c:628-683 | Each call dispatched on the machine refines one step of module Syscalls |
| Kernel.Machine.RunAll | kern/syscall.c:628-683 | Any sequence of calls, stores and scheduling on counts, links and page-table words in memory computes exactly the run of module Syscalls, so all its invariants hold of the machine |
| CowFork.DuppageKeeps | lib/fork.c:76-118 | duppage keeps every environment's view equal to the copying machine's, in the shared, read-only and copy-on-write cases; when it panics nothing has changed |
| CowFork.DupCowKeeps | lib/fork.c:97-106 | The two remappings of a writable or copy-on-write page leave it writable nowhere |
| CowFork.PgFaultEffect | lib/fork.c:15-62 | The fault handler replaces the faulting mapping by a private writable copy, removes its scratch mapping and leaves all other mappings and contents |
| CowFork.WriteKeeps | lib/fork.c:15-62 | A store, with the handler if need be, is the store of the copying machine; it fails only if that machine forbids it or there is no memory for the copy |
| CowFork.TempLost | lib/fork.c:45-59 | A store leaves the set of mappings as it is, except that one which goes through the handler takes away what the environment had at PFTEMP |
| CowFork.PageAllocRelated | kern/syscall.c:238-280 | Allocation of private or PTE_SHARE pages agrees with the copying machine |
| CowFork.PageUnmapRelated | kern/syscall.c:379-403 | Unmapping a page of one's own or of a child's agrees with the copying machine and removes that mapping and no other |
| CowFork.EnvFreeRelated | kern/env.c:486-534 | Exit of an environment agrees with the copying machine |
| CowFork.ExoforkRelated | kern/syscall.c:86-115 | Creating an environment changes nobody's view |
| ForkRuns.StepRelated | lib/fork.c:15-118 | One step of either machine keeps the two related |
| ForkRuns.RunsRelated | lib/fork.c:15-118 | Every run of duplications, stores, allocations, unmappings and exits keeps the two machines related |
| ForkRuns.ForkIndistinguishable | user/dumbfork.c:26-80 | From any state in which each directly writable private page has one mapping, after any run, every environment reads at every address below the stack top what it would read if fork had copied, and a page seen copy-on-write through one mapping is writable through no other |
| ForkRuns.CowNeverWritable | lib/fork.c:15-118 | If no mapping starts with both PTE_W and PTE_COW and no allocation in the run asks for both, no page seen copy-on-write is ever writable at all |
| ForkRuns.BothBitsAllocated | kern/syscall.c:238-280 | sys_page_alloc accepts both bits, and one such call makes a page that is copy-on-write and writable through the same mapping |
| ForkRuns.EagerDupAllCopies | user/dumbfork.c:41-80 | Copying page by page gives the child a copy of, or a share in, every page of the parent and changes nothing else |
| ForkRuns.ForkCopies | lib/fork.c:137-219 | When fork returns there is a new runnable child of the caller whose view is the copy, and the parent's view is unchanged |
| DumbFork.DumbEffect | user/dumbfork.c:26-38 | Copying through UTEMP gives the child a fresh writable page with the parent's contents; what the parent had at UTEMP is gone and no other mapping or contents change |
| DumbFork.DumbCopies | user/dumbfork.c:26-38 | dumbfork's duppage does on the real machine what the copying machine does by giving up UTEMP and copying |
| DumbFork.SameChildPage | user/dumbfork.c:26-38 | For a private writable page dumbfork's duppage and the copy-on-write duppage lead to the same state of the copying machine, but for what the parent had at UTEMP |
| UserFork.DuppageCall | lib/fork.c:76-118 | duppage as system calls on the machine computes the duppage of module CowFork |
| UserFork.Fork | lib/fork.c:137-219 | fork's loop over page numbers, with its system calls, computes the fork of module ForkRuns, panics included |
| UserFork.CopyWords | lib/fork.c:49-50 | The word-by-word memmove through the page tables copies the page |
| UserFork.PgFaultCall | lib/fork.c:15-62 | The handler as system calls and stores on the machine computes the handler of module CowFork |
| UserFork.DupAllStops | lib/fork.c:137-219 | Once duppage has panicked the loop has no further effect |
| Ipc.StepSeen | kern/syscall.c:444-555 | A delivery ends a receive and sets value, sender and permission to the send's; no other step touches value, sender or the receiving flag, and only a failed send clears the permission |
| Ipc.Rendezvous | kern/syscall.c:444-555 | After a receive has blocked, over any run: at most one message is delivered, the environment is still receiving exactly while none has been, and its fields then hold that message |
| Ipc.OneSendPerReceive | kern/syscall.c:444-555 | Between two successive receives there is exactly one successful send if and only if the environment is no longer receiving at the second, which holds whenever no sys_env_set_status reached it while blocked |
| Ipc.SetStatusWakes | kern/syscall.c:125-148 | A parent that sets a blocked child runnable makes its receive return without a message |
| Ipc.FailedSend | kern/syscall.c:444-512 | A failed send changes nothing except that it clears env_ipc_perm of a receiver |
| Ipc.PageDelivered | kern/syscall.c:467-500 | The page received is the one the sender maps, with the receiver's mapping as its one new reference, the permissions sent and unchanged contents |
| Smp.CallEffect | kern/syscall.c:63-148 | A permitted system call moves only its caller on or off a CPU and keeps every receiver blocked |
| Smp.SysEffect | kern/trap.c:388-454 | Only the lock holder changes environments, and only its current environment gets on or off a CPU |
| Smp.LockStep | kern/spinlock.c:63-116 | The lock word and owner change exactly as the CPU takes or gives back the lock |
| Smp.LockKeeps | kern/spinlock.c:63-116 | At most one CPU holds the lock, it is locked exactly when one does, and the recorded owner is that CPU |
| Smp.StepKeepsCpu | kern/trap.c:388-454 | Each step from trap entry to iret or hlt keeps what that point of the code relies on |
| Smp.StopAtCur | kern/sched.c:119-130 | When the scan has come round, the slot just before is the current environment's |
| Smp.ApartKeeps | kern/env.c:591-635 | env_run gives no environment to two CPUs |
| Smp.OwnedKeeps | kern/env.c:542-635 | A RUNNING or DYING environment stays current on some CPU |
| Smp.NextKeeps | kern/trap.c:388-454 | Every permitted step of any CPU keeps the whole invariant |
| SmpRuns.BootInv | kern/init.c:58-85 | The end of boot, with CPU 0 holding the lock and the others waiting for it, satisfies the invariant |
| SmpRuns.EveryRunSafe | kern/trap.c:388-454 | For any number of CPUs and any interleaving: one CPU in the kernel at a time, each entry takes the lock once and each exit releases it once, no lock assertion fails, no environment is current on two CPUs, halted CPUs have none, and a RUNNING or DYING environment belongs to one CPU |
| SmpRuns.RunSerial | kern/spinlock.c:63-116 | A multi-CPU run leaves pages and environments as the single-CPU run of its events in the order they happened, calls under the lock and user stores outside it alike; each event is one step |
| SmpRuns.AllowedExactly | kern/syscall.c:125-148 | sys_env_set_status and sys_env_destroy keep the invariant if and only if the target is not on another CPU, a receiver is not woken, and a zombie is not destroyed again |
| SmpRuns.RunOnTwoCpus | kern/env.c:591-635 | Otherwise a parent that sets its RUNNING child runnable and yields ends with two CPUs in user mode on the same environment |
| SmpRuns.DestroyedTwice | kern/env.c:542-558 | A child that runs on another CPU is a safe zombie after one sys_env_destroy, and after a second one it is free while that CPU runs it |
| SmpRuns.WokenReceiver | kern/syscall.c:125-148 | A receiver woken by sys_env_set_status and scheduled becomes RUNNABLE in user mode when somebody sends to it, which is not safe |
| Sched.SchedYield | kern/sched.c:92-144 | The scan chooses the first RUNNABLE slot in cyclic order after the current one, else the current environment if it still runs, else halts; its turns are those of the multi-CPU model |
| Sched.EndsExactly | kern/sched.c:115-139 | The scan ends if and only if something is RUNNABLE or the current environment is not in the last slot |
| SchedRuns.RunScans | kern/sched.c:92-144 | In every run a CPU in the middle of its scan has passed over no environment that is RUNNABLE, since the others do not change the table meanwhile |
| SchedRuns.Reached | kern/init.c:58-85 | Every state that a permitted run from boot reaches satisfies the invariant and has such scans, so bounded waiting holds from there |
| SchedRuns.BoundedWaiting | kern/sched.c:92-144 | In every run of the multi-CPU kernel: an environment that stays RUNNABLE is chosen by any CPU that completes NENV scans and always has a current environment |
| FsImage.UnpackPack | inc/fs.h:27-45 | The bytes of a block of words packed from bytes are those bytes |
| FsImage.GetSetBit | fs/fs.c:41-47 | Setting or clearing a bit changes that bit and no other |
| FsImage.Mark | fs/fs.c:41-47 | Marking a block in the bitmap changes its bit, no other block's bit and no block outside the bitmap |
| FsOwn.SetPtrVal | fs/fs.c:150-195 | Writing one block pointer changes no other pointer of any file |
| FsOps.AttachKeeps | fs/fs.c:206-232 | Taking a free block, clearing it and storing its number keeps pointers distinct and in range and the bitmap exact |
| FsOps.AttachUnseen | fs/fs.c:206-232 | No reader of any regular file can tell that a block was attached, and no size changes |
| FsOps.DetachKeeps | fs/fs.c:452-464 | Freeing a block and clearing its pointer keeps the bitmap exact: that block becomes free and no other |
| FsOps.DetachByte | fs/fs.c:452-464 | After a detach the block's bytes read as zero and all other bytes of all regular files are as before |
| FsOps.PutKeeps | fs/fs.c:436-444 | Writing a data block moves no pointer and no bit |
| FsOps.PutBytes | fs/fs.c:436-444 | Writing a data block changes just the bytes of that block of that file |
| FsOps.PutSizeKeeps | fs/fs.c:495-502 | Setting a size moves no pointer and no bit |
| BlockCache.Cache.Fault | fs/bc.c:30-72 | A fault maps a block in use clean with its disk contents if and only if the access was to its first byte, and otherwise ends in the panic stated; no block's logical contents change |
| BlockCache.Cache.Load | fs/bc.c:30-72 | A read sees the logical contents and keeps the cache coherent |
| BlockCache.Cache.Store | fs/bc.c:22-25 | A store changes one block's logical contents and leaves it dirty |
| BlockCache.Cache.FlushBlock | fs/bc.c:82-104 | A flush brings one block's disk copy up to date, leaves it clean and changes no logical contents |
| BlockCache.Cache.Sync | fs/fs.c:528-533 | After fs_sync every block from 1 up is on the disk |
| FileServer.AllocBlock | fs/fs.c:58-81 | Takes the lowest free block and flushes the bitmap block; -E_NO_DISK exactly when none is free |
| FileServer.FileBlockWalk | fs/fs.c:150-195 | Gives the place of the block pointer, with each error exactly when the comment says; only a missing indirect block is ever allocated |
| FileServer.FileGetBlock | fs/fs.c:206-232 | Gives the block of the file, allocated if need be; bytes and sizes are unchanged, also when it fails halfway |
| FileServer.FileRead | fs/fs.c:397-418 | Returns the file's bytes, as many as asked or left, across the direct and indirect blocks; a read may fill holes but changes nothing a reader sees |
| FileServer.FreeBlock | fs/fs.c:41-47 | Sets the block's bit and nothing else |
| FileServer.FileFreeBlock | fs/fs.c:452-464 | Gives back one block if it is there; an error means it was not |
| FileWrite.FileTruncateBlocks | fs/fs.c:476-491 | Gives back exactly the blocks past the new size, and the indirect block once it is not needed |
| FileWrite.FileSetSize | fs/fs.c:495-502 | Sets the size, frees exactly what a smaller size does not need, flushes the File structure and changes no other file |
| FileWrite.ShrinkThenExtend | fs/fs.c:476-502 | Extending after shrinking shows zeros in freed blocks and the old bytes in the rest of the last kept block |
| FileWrite.FileWrite | fs/fs.c:426-447 | The bytes written are there, every other byte of every regular file and every other size is as before, the file has grown to hold them; on an error exactly a prefix has been written and the reason is stated |
| FileWrite.WriteThenRead | fs/fs.c:397-447 | Reading what was written gives it back, and every other file reads as before |
| FileWrite.FileFlush | fs/fs.c:509-523 | All of the file's blocks, its indirect block and its File structure are on the disk; logical contents are unchanged |
| FileRuns.Serve | fs/fs.c:397-533 | Over any sequence of requests every answer, with the bytes read, is the one that a plain byte array and size per file give after the requests before it, errors included; the cache stays coherent, the bitmap and the pointers agree exactly and no file has blocks past its size |
| FileRuns.ServeOne | fs/fs.c:397-533 | One request answers as the plain files do and leaves the image showing the plain files after it |
| FsFormat.Formatter.Alloc | fs/fsformat.c:82-89 | Hands out the next blocks and fails exactly when the end of the disk is reached |
| FsFormat.Formatter.FinishFile | fs/fsformat.c:135-148 | Builds the File structure and indirect block for consecutive blocks |
| FsFormat.Formatter.WriteFile | fs/fsformat.c:181-209 | Adds one file after the others; it panics only if the files cannot all fit |
| FsFormat.Formatter.OpenDisk | fs/fsformat.c:92-120 | Lays out super-block and bitmap |
| FsFormat.RoundUps | fs/fsformat.c:34 | ROUNDUP on int and on uint32_t agree exactly when the size is not 0; then the int gives a whole block |
| FsFormat.Formatter.FinishDir | fs/fsformat.c:170-178 | Stores the directory entries and the root's File structure, of one block even when there are no entries |
| FsFormat.Formatter.FinishDisk | fs/fsformat.c:123-132 | Marks exactly the blocks handed out as in use |
| FsFormat.Formatter.Format | fs/fsformat.c:219-243 | Panics exactly when the files do not fit, and otherwise produces the layout |
| FsFormat.FormatOwns | fs/fsformat.c:135-178 | Every such image of at least one file satisfies the file server's ownership invariant, bitmap included |
| FsFormat.FormatEmpty | fs/fsformat.c:170-178 | For no files the root directory has size 4096 and points at block 3, which is marked free, so the image does not satisfy it |
| FsFormat.FormatSized | fs/fsformat.c:135-178 | No file in it has blocks past its size |
| FsFormat.FormatReads | fs/fsformat.c:204-207 | Each file in it reads as the host file, indirect blocks included |
| FsFormat.FormatServes | fs/fs.c:150-195 | Of what fsformat builds without a panic, fs.c can serve exactly the images of at least one file |
| Pipe.NextKeeps | lib/pipe.c:105-172 | Every single access of reader or writer keeps the buffer invariant |
| Pipe.Fifo | lib/pipe.c:105-172 | For every interleaving the bytes read are a prefix of the bytes written and 0 <= wpos - rpos <= 32 |
| Pipe.IndexExact | lib/pipe.c:133 | For any position, as a signed 32-bit one gives it, the index into p_buf is right if and only if the position is below 2^31 modulo 2^32 or a multiple of 32, and otherwise lies before the buffer |
| Pipe.WritesAt | lib/pipe.c:167-168 | For every n there is a run after which the next byte has position n, so that after 2^31 + 1 bytes it goes before the buffer |
| Pipe.FitsInOff | lib/pipe.c:118-168 | In every run of at most 2^31 bytes all indices and both tests in 32 bits are those of the unbounded positions |
| PipeClosed.CountsAdd | lib/pageref.c:3-14 | The data page's count is the sum of the two descriptor pages' counts, plus the data pages mapped without descriptor, less the descriptors mapped without data page |
| PipeClosed.NextKeeps | lib/fd.c:101-202 | Every system call of dup, close and fork, and every switch or exit between them, keeps a descriptor mapped only where its data page is, except in an environment that fork has not finished |
| PipeClosed.ClosedSound | lib/pipe.c:76-89 | Over every run since pipe, _pipeisclosed returns 1 exactly when the descriptors without data page are as many as the holders of the other end and the loose data pages together; those descriptors belong to unfinished forks, and with none the other end has no holder |
| PipeClosed.AnswerLasts | lib/pipe.c:76-89 | An answer 1 given when no fork was between a descriptor page and its data page is right then and at every later moment |
| PipeClosed.StaysClosed | lib/pipe.c:76-89 | An end without holders never gets one again |
| PipeClosed.ForkWhole | lib/fork.c:176-213 | In every interleaving a fork that comes to its end has given the child exactly the parent's descriptors, each with its data page |
| PipeClosed.ForkAlone | lib/fork.c:176-213 | The same as an exact state for a fork that is not interrupted |
| PipeClosed.WrongAnswer | lib/fork.c:176-190 | A run from pipe in which a third holder of the read end asks while a fork has copied that descriptor but not its data page, and is told that the pipe is closed although the write end is held |
| ReceiveRing.DeviceKeeps | kern/e1000.c:95-129 | Each store of the device keeps waiting packets whole in their slots |
| ReceiveRing.DriverKeeps | kern/e1000.c:147-209 | Each access of the driver, the two words of a descriptor read one after the other in either order, keeps the order of packets |
| ReceiveRing.InOrder | kern/e1000.c:147-209 | For every interleaving packets are delivered in order, once each, and those not yet delivered are whole in the ring; what is delivered is the packet exactly when its descriptor was not written back between the reads of its length and its status, and otherwise an empty one, which cannot happen if the status is read first |
| ReceiveRing.DeliveredEmpty | kern/e1000.c:161-172 | A run in which a packet of one byte is delivered as an empty one |
| ReceiveRing.NeverOverwritten | kern/e1000.c:179-195 | The device never writes the buffer the driver copies from, although RDT moves first |
| ReceiveRing.Room | kern/e1000.c:89-95 | RDH differs from RDT exactly when the device has a descriptor to spare |
| StabSearch.StabBinsearch | kern/kdebug.c:59-103 | Terminates; with sorted entries and one at or below the address, left is an entry of the type and right the index before the next one, and left is the last at or below the address unless both the address and the next one have entries |
| StabSearch.TooFarExactly | kern/kdebug.c:65-97 | With an entry at the next address the result is above the address if and only if the search meets an entry at the address before it meets the first one at the next |
| StabSearch.TurnKeeps | kern/kdebug.c:65-90 | Every turn of the search keeps all entries up to l below the address sought and all after r above the one asked for |
| StabSearch.FitsInWord | kern/kdebug.c:83-89 | With no entry at the last address the address sought stays below 2^32 in every turn |
| StabSearch.OneTooFar | kern/kdebug.c:83-89 | With entries at the address and at the next one the search can return the next one |
| Malloc.BlockSafe | lib/malloc.c:42-139 | A byte of a live block is mapped, in no other live block and in no count word, and every count is exactly the number of live blocks counted there, plus one for the open page or a page left behind at a page boundary |
| Malloc.GoesWithLast | lib/malloc.c:132-138 | The page that counts a block is unmapped with the last block counted there and not before, unless it is open or was left behind |
| Malloc.LeftBehind | lib/malloc.c:107-111 | malloc(4096) and free on an empty heap leave a page mapped with no live block, which no later call unmaps |
| Malloc.Heap.IsFreeRun | lib/malloc.c:30-39 | True exactly when all the pages are below mend and unmapped, or when the end address wraps round in 32 bits |
| Malloc.Heap.Allocate | lib/malloc.c:42-112 | Wherever mptr is: the heap stays sound, and the call fails an assertion exactly when mptr is partway through a page below the heap and the chunk does not fit there. From inside the heap mptr stays inside if and only if the call does not have to leave the last page, or comes round through memory that is all mapped; otherwise, and from outside, the address returned and the new mptr are stated. A page is left behind exactly when a new run is a whole number of pages |
| Malloc.Heap.Free | lib/malloc.c:115-139 | Takes one block out, keeps every other block safe, and unmaps its last page exactly when no other block, mptr or a lost reference holds it; on a block that starts below the heap it fails its assertion and changes nothing |
| Malloc.Heap.FindRun | lib/malloc.c:83-93 | From any address: inside the heap it finds a free run or has looked at every page; from above it stops near the top of the address space for a page or more; otherwise it takes the first free run from page 0 or from where it is below the heap |
| Malloc.Heap.TakeRun | lib/malloc.c:98-111 | Maps the run with its count, or nothing when the kernel has no pages; the last page is left behind exactly when the run is a whole number of pages |
| Malloc.StaysUsually | lib/malloc.c:54-75 | With page 0 unmapped, mptr stays inside exactly when it is not partway through the last page, or the chunk fits there, or the rounded size is MAXMALLOC or more |
| Malloc.LastPage | lib/malloc.c:57-75 | A heap with 4000 bytes in its last page satisfies the invariant, and malloc(200) leaves it |
| Malloc.NextPanics | lib/malloc.c:73-122 | The heap after that call, with page 0 mapped, satisfies the invariant too, and the next malloc(4000) fails an assertion |
| Malloc.RoundCovers | lib/malloc.c:53-56 | The rounded size covers the request except for the three largest sizes, which wrap to an empty chunk |

## Left out

- Kernel.Machine.RunAll: asks that no page has 65535 references before a call, since pp_ref is a uint16_t that the code does not check; `KernelRepr.CountFits` shows that this is exactly when a count can be wrong, and `KernelRepr.FreedEarly` what a wrong one does.
- UserFork.Fork: asks for room in the 16-bit counts for the references that fork adds.
- ForkRuns.ForkIndistinguishable: starts from states in which each directly writable private page has one mapping, treats one duppage call as a single step with respect to the parent's own stores, and has no acts for sys_page_map and IPC page transfers of the environments' own. It does not speak of the handler's scratch page at PFTEMP, for which `CowFork.TempLost` says exactly which stores change it, nor of the exception stack above USTACKTOP.
- SmpRuns.EveryRunSafe: covers runs in which sys_env_set_status and sys_env_destroy are used as `Smp.Allowed` says; `SmpRuns.AllowedExactly` shows that the invariant needs this, and `SmpRuns.RunOnTwoCpus`, `SmpRuns.DestroyedTwice` and `SmpRuns.WokenReceiver` are runs without it that are not safe.
- SchedRuns.BoundedWaiting: asks that the CPU always has a current environment; one whose environment was freed starts again from slot 0, and can pass over a later slot as often as that happens.
- FileServer.FileRead: states the bytes for regular files; directories, whose blocks hold File structures, are only covered as owners of blocks. Offsets are not negative. Like all of `FileServer` and `FileWrite` it stands for runs in which the fault handler does not panic; `BlockCache.Cache.Fault` says exactly when it does.
- FileWrite.FileWrite: asks that offset plus count is at most 0x7FFFF000, below which the signed 32-bit arithmetic on sizes and block numbers does not overflow.
- FileWrite.FileSetSize: asks the same of the new size.
- BlockCache.Cache.Load: stands for an access that the fault handler survives: the block is cached or is touched at its start first. That the block exists and is in use is proved of every block the file server's methods touch.
- BlockCache.Cache.Store: stands for such an access too.
- Pipe.Fifo: positions are unbounded; `Pipe.FitsInOff` shows that this is exact up to 2^31 bytes, and `Pipe.WritesAt` that it is not after that.
- PipeClosed.ClosedSound: covers one CPU, and env_runs does not wrap. dup is given a descriptor number below 32, which it does not check itself. An environment that panics in fork leaves its child half made for good, as in the code.
- ReceiveRing.InOrder: packets fit one buffer, the device stores a packet's bytes before its descriptor, and it writes the descriptor back in one piece.
- StabSearch.StabBinsearch: addresses are unbounded; `StabSearch.FitsInWord` shows that this is exact unless an entry of the type is at 0xFFFFFFFF.
- FsFormat.Formatter.Format: covers disks of at most 1024 blocks, as the program does, takes the malloc'ed directory entries as zeroed, and does not model reading the host files.
- Mappings above UTOP and the contents of the kernel's part of a page directory, which are not reference counted.
- ALLOC_ZERO is the only flag page_alloc is modelled with; boot_alloc, boot_map_region and mmio_map_region are not modelled.
- Trap frames, registers, segment set-up, the TLB and inline assembly; an exchange is one step.
- sys_env_set_trapframe, sys_env_set_pgfault_upcall, the console, time and network calls.
- user_mem_check, region_alloc and load_icode.
- spawn, path lookup, file creation and the directory code of fs.c, and the server's request loop.
- The transmit ring, the network stack and the network server.
- Crashes: the file server is modelled without losing the cache.
- The priority scheduler, which is not compiled, and the monitor.
