# A verified model of a small RISC-V teaching kernel

The kernel is about 2,000 lines of C for RV64 with Sv39 paging. This project models its five stateful cores in Dafny,
each in the form the C has (classes whose methods update tables in place, loops with invariants), and proves what the
rest of the kernel relies on. `dafny verify dfyconfig.toml` checks everything.

## The parts

**Physical and virtual memory** (`Words`, `Pmm`, `Sv39`, `Vmm`, `Fork`, `AddressSpaces`, `SpaceRuns`, `KernelSpaces`,
`ElfLoader`, `ExecImage`, `KernelMode`, `UserMode`). RAM is a map from frame number to 512 words. The frame allocator's
bitmap is packed into the first of those frames, and page tables are words of frames that the allocator handed out;
nothing is kept beside memory but ghost state. A ghost typing of frames (root, middle, low, user page) carries the tree
invariant. On top of it: the three-step walk agrees with the translation algorithm of section 4.3.2 of the RISC-V
Privileged Architecture, mapping changes exactly one page, fork's copy is isolated, demand paging cannot panic on
mapping state, an ELF image reads byte for byte as its headers say, and the argument vector reads back as it was given.
`SpaceRuns` is the transition system of address spaces: new exec roots, clones, mapped pages, stores of user programs,
growth of the heap and stores to it. Over every run of it, each table ever built stays one and agrees with the kernel's
above 0x80000000, and user addresses change only through their own table or through the slot that exec-built tables
share. The methods of `KernelSpaces`, `ElfLoader` and `ExecImage` promise in their contracts which steps of that system
they are. `UserMode` and `KernelMode` read the permission bits as the hardware does: in every run user mode reaches user
pages only, and supervisor mode reaches RAM, devices and heap through every table; a program finds its segments, its
stack and its arguments by loads that the hardware allows.

**The kernel heap** (`HeapPages`, `Heap`). Block headers are words of the heap itself, each the word that the kernel's
table translates its address to. `HeapPages` shows that the frames behind the heap belong to it alone: no exec, fork,
fault or user store reaches them. The blocks of the list partition the heap, and over every run of kmalloc, kfree and
client stores a live payload is touched by nobody but its owner. Whatever else is done on the same address spaces leaves
a valid heap valid.

**Processes** (`Processes`, `ProcTable`, `ProcRuns`, `ProcTheorems`, `ExitCodes`, `Waiting`, `Scheduling`,
`SchedulingRuns`, `Starvation`, `Slices`). `Processes` says what each operation does to the table as a value,
`ProcTable` is the in-place code proved against it, `ProcRuns` is the transition system whose steps are those
operations, each up to its context switch, for any number of slots. The others prove, over its runs, no lost wakeup, no
deadlock of waiters, the life cycle of an incarnation down to the exit code its parent gets, what becomes of a repeated
wait, FCFS as a FIFO queue, the bounded bypass of round robin, exactly when MLFQ starves a process, and what ticks and
switches do to slices and priorities.

**The RAM file system** (`CStrings`, `FsModel`, `FsFacts`, `FsPaths`, `FsRuns`, `FsBoot`, `FsReuse`, `FileSystem`,
`FsStreams`, `FsLaws`). `FsModel` is the file system as a value with its invariant: disjoint zero-filled regions, exact
reference counts, descriptors that name used inodes. `FileSystem` is the in-place code proved equal to it; `FsPaths`
treats path resolution, `FsRuns` whole runs of calls, `FsBoot` the state of fs_init, `FsReuse` a run after which a path
is lost, and `FsStreams` files as streams of bytes, and `FsLaws` what each call means to a program.

**The shell** (`ShellModel`, `ShellLine`, `Shell`, `ShellPipe`). `execute_command` over the same `FileSystem` class,
with the child as the sequence of calls it makes, and the pipe through `/tmp/pipe`.

## Reading the contracts

- `panic` never returns. Methods that can panic return `ok == false` there, and their contracts say when that happens.
- Masks and shifts by constants are division and remainder on naturals below 2^64; `Bit` and `Digit` stand for bits and
  bytes of a word, so wrap-around is written out where it can occur (`Sv39.Next`, `Processes.OneShifted`).
- A physical address of a frame is `frame * 4096`; `FRAME_LIMIT` is the 44-bit page number of Sv39.
- `Runs` of the process table assume that the time stamp counter stays below 2^64 - 1 (`ProcRuns.Sized`).

## Where the code does not do what one would expect

Each of these is a theorem, with the exact condition where one exists.

- **Tables built by exec share root slot 0.** exec copies the kernel root, so two exec-built tables share the middle
  table of the first gigabyte. `AddressSpaces.SharingIsExact` says precisely when two tables share a user address;
  `SpaceRuns.IsolatedInRuns` excepts this and nothing else.
- **Creating a file may not make its path resolve.** fs_unlink leaves the directory entry, and alloc_inode hands the
  same number out again. `FsReuse.CreateMayNotResolve` is a run of seven calls from fs_init after which `/d/x` is
  created and leads nowhere; `FsPaths.CreateThenResolve` is the exact condition, and `FsRuns.CreatedPathsResolve` shows
  that runs without unlink are not affected. `FsPaths.MkdirThenResolve` is the exact condition for mkdir, which also
  returns 0 for paths that end in `/` or in `.` and makes a directory those paths do not lead to.
- **wait counts children it has already reaped.** After a reap, the next pass of a second wait for the same child sleeps
  instead of returning -1 (`Waiting.WaitAgainSleeps`). It stays asleep over every run in which the slot is not used
  again (`Waiting.WaitsOn`); once another process forks into the slot and a child of the waiter then dies, it wakes and
  returns -1 (`Waiting.ReuseEndsIt`, `Waiting.ChildDeathWakes`, `Waiting.OnlyNoneIsLeft`).
- **A zombie can be killed**, which overwrites the exit code its parent has yet to read (`ExitCodes.OnlyKillOverwrites`
  is exact; `ExitCodes.CodeIsLost` is a run from boot, under every policy).
- **MLFQ starves.** yield raises the process that gives up the processor, and nothing raises one that waits. While
  processes only yield, a RUNNABLE one is never switched to if and only if two others come before it by priority and
  then by slot, current counting with the priority that yield leaves it (`Starvation.StarvedIff`). Two forks after boot
  are enough, with all priorities equal (`Starvation.StarvingRun`).
- **pmm_free_frame accepts a frame of the bitmap**, after which the allocator's invariant is gone
  (`Pmm.PhysicalMemory.FreeFrame`).
- **vmm_lookup_page and the hardware differ** on addresses that are not canonical, on accesses that the leaf does not
  permit, on a leaf that is writable but not readable and on superpages (`Sv39.LookupAgreesWithHardware`,
  `Sv39.LookupIsWrongOnSuperpages`); the kernel makes neither superpages nor, except from an ELF header with only PF_W,
  such leaves.
- **O_TRUNC truncates under O_RDONLY too**, since `O_WRONLY | O_RDWR` contains the bit of O_RDONLY
  (`FsStreams.TruncatesIff` is exact).
- **The redirection a pipe appends can be lost**: in a half of fifteen words or more, or one that ends in `<` or `>`
  (`ShellModel.AppendedRedirection` is exact).
- **execute_command closes descriptors 12 and 13** if they were open: the descriptors are left as found if and only if
  they were free (`ShellModel.CommandLeavesDescriptors`).

One difference is a matter of layout and not of proof: a block header of the heap is taken to be 24 bytes
(`Heap.HEADER`), as the three fields of `struct block_header` need on RV64, and not the 16 of the comment above it.





## Model

| member | source | states |
|---|---|---|
| Words.BitOfSetBit | pmm.c:12-12 | Setting bit i makes bit i read as set and leaves every other bit of the word alone |
| Words.BitOfClearBit | pmm.c:13-13 | Clearing bit i makes it read as clear and leaves every other bit alone |
| Words.DigitOfSetDigit | pmm.c:12-14 | A byte store into a little-endian word changes that byte and no other |
| Pmm.BitmapAddrInBitmap | pmm.c:21-28 | The byte that holds the bit of any managed frame lies in the frames reserved for the bitmap |
| Pmm.BitmapIsTight | pmm.c:21-28 | The bitmap takes as many frames as its bits need and not one more |
| Pmm.MarkedAfterByteStore | pmm.c:12-14 | Rewriting one bitmap byte moves the bits that live in it and no others |
| Pmm.MarkedDependsOnBitmapOnly | pmm.c:61-65 | A write outside the bitmap's frames leaves every bit alone |
| Pmm.PhysicalMemory.constructor | pmm.c:16-49 | From a page-aligned start the bitmap inside memory ends up marking its own frames and nothing else; the free set is all the others |
| Pmm.PhysicalMemory.ClearBitmap | pmm.c:30-35 | All bits are clear afterwards, whatever RAM held before |
| Pmm.PhysicalMemory.MarkBitmap | pmm.c:40-43 | Exactly the bitmap's own frames are marked |
| Pmm.PhysicalMemory.AllocFrame | pmm.c:52-73 | Succeeds iff a frame is free; hands out the lowest one, zeroed; the bitmap still refines the free set and no other frame changes |
| Pmm.PhysicalMemory.FreeFrame | pmm.c:76-94 | Accepts exactly the aligned, in-range, marked frames; the frame becomes free; the invariant survives iff it was not a frame of the bitmap |
| Pmm.PhysicalMemory.Store | pmm.c:62-65 | A word store to a frame in use changes that word only and keeps the bitmap |
| Sv39.DirPteFacts | vmm.c:24-32 | A directory entry is valid, is no leaf, and leads to the frame it was made from |
| Sv39.LeafPteFacts | vmm.c:43-43 | A leaf entry leads to its frame and carries exactly the permissions asked for, with V, A and D |
| Sv39.RetargetFacts | proc.c:243-243 | The entry clone writes leads to the new frame and keeps the old low ten bits |
| Sv39.SamePageIsSamePageNumber | vmm.c:10-13 | The three index fields agree iff bits 38..12 of the addresses agree |
| Sv39.WalkIsThreeSteps | vmm.c:84-99 | In typed memory the loop takes exactly three steps and never meets a superpage |
| Sv39.ZeroMeansUnmapped | vmm.c:75-100 | The lookup returns 0 iff no leaf is mapped |
| Sv39.UserLeaf | proc.c:235-247 | A user leaf leads to a page that belongs to this one leaf |
| Sv39.SameSlotMeansSamePage | vmm.c:76-100 | Two walks end at one entry only for the same page, through roots that hold the same middle table |
| Sv39.LookupAgreesWithHardware | vmm.c:76-100 | For every access and privilege mode the lookup equals the translation algorithm of sections 4.3.2 and 4.4.1 of the Privileged Architecture, except iff the address is not canonical, the leaf is writable and not readable, or it does not permit the access |
| Sv39.PermitsByFlags | vmm.c:43-43 | What the hardware reads in the low ten bits of a leaf that vmm_map_page wrote: exactly the permissions asked for, accessed and dirty |
| Sv39.LeafAccess | vmm.c:43-43 | An access through such a leaf reaches its frame iff those permissions allow it in that mode |
| Sv39.LookupIsWrongOnSuperpages | vmm.c:89-93 | A concrete superpage where the lookup and the hardware part ways |
| Sv39.LinkEmptyTable | vmm.c:26-34 | Hanging a zeroed table under an empty slot keeps the typing and changes no walk of any root |
| Sv39.PutLeaf | vmm.c:37-43 | A leaf stored in an empty slot changes exactly the walks that reach this slot |
| Vmm.LowTableIsUnique | vmm.c:17-37 | A low table is reached by the addresses of one 2 MiB range, through one middle table |
| Vmm.MappedKeepsOtherPtes | vmm.c:37-43 | A mapping rewrites no leaf that was there, in any root |
| Vmm.LeafStoreMaps | vmm.c:37-43 | The final store completes the mapping: one page gains a translation, all others keep theirs |
| Vmm.MapThenLookup | vmm.c:9-100 | After mapping, lookup gives frame plus offset for every offset of that page, in the root and in those that share its middle table, and is unchanged at every address of another page |
| Vmm.Vmm.NewTable | vmm.c:26-34 | Panics iff no frame is free; no walk of any root changes |
| Vmm.Vmm.NextTable | vmm.c:17-35 | One turn of the loop: the child of the right role, made if missing |
| Vmm.Vmm.LowTable | vmm.c:17-35 | Reaches the low table; needs exactly the missing tables in free frames |
| Vmm.Vmm.MapPage | vmm.c:9-44 | Succeeds iff the page is unmapped and frames suffice for the missing tables; then this page and no other changes |
| Vmm.Vmm.Init | vmm.c:46-64 | Identity-maps the four device pages and 128 MiB of RAM and nothing else; panics only out of frames |
| Vmm.Vmm.MapDevices | vmm.c:49-56 | After the four calls exactly the device pages are mapped, each to itself |
| Vmm.Vmm.MapKernelRam | vmm.c:58-64 | After the loop exactly the device and RAM pages are mapped, each to itself |
| Vmm.Vmm.Lookup | vmm.c:76-100 | The loop computes the walk |
| Fork.CopyPage | proc.c:240-242 | The destination frame equals the source, nothing else changes |
| Fork.CloneUserPage | proc.c:237-243 | The copied leaf leads to a fresh frame with the parent's contents and low ten bits |
| Fork.CloneLeaf | proc.c:235-247 | User leaves are copied, other leaves are shared, empty slots stay empty |
| Fork.CloneLow | proc.c:235-247 | The same for all 512 entries; only fresh frames are written |
| Fork.CloneMid | proc.c:227-249 | Every low table is copied leaf for leaf |
| Fork.CloneRootSlot | proc.c:219-251 | One of the two private root slots is copied to the leaves |
| Fork.ShareSlots | proc.c:216-217 | Slots 2 to 511 are the parent's, slots 0 and 1 untouched |
| Fork.CloneUserPagetable | proc.c:211-253 | A new root whose slots 0 and 1 are deep copies and whose others are shared; the parent and every frame in use keep their contents |
| AddressSpaces.KernelWindowCoherence | proc.c:400-403 | Where the sharing discipline holds each root agrees with the kernel root on every address in slots 2 and up |
| AddressSpaces.SharingIsExact | proc.c:400-403 | Two roots reach a user address through one entry iff it lies in slot 0 and neither root was cloned |
| AddressSpaces.UserStoreIsLocal | proc.c:210-253 | A store through one root is seen through another exactly at the aliases of that byte |
| AddressSpaces.StoreIsolation | proc.c:210-253 | A store through one root is invisible to another, except in slot 0 between two exec-built tables, where it is visible |
| AddressSpaces.MapIsolation | vmm.c:9-44 | A page mapped through one root changes no translation and no byte of another, with the same exact exception |
| AddressSpaces.StillUnshared | vmm.c:26-34 | A mapping never makes two roots share a table |
| AddressSpaces.UserMapKeepsSpaces | trap.c:113-119 | Mapping below 0x80000000 keeps the sharing discipline |
| AddressSpaces.HeapMapKeepsSpaces | heap.c:29-37 | A heap page mapped in the kernel root keeps it, and appears in every root |
| AddressSpaces.NewExecRootKeepsSpaces | proc.c:396-403 | A copy of the kernel root keeps it |
| AddressSpaces.ForkKeepsSpaces | proc.c:211-253 | A cloned root keeps it |
| AddressSpaces.ForkTranslates | proc.c:211-253 | Parent and child map the same pages; user pages of slots 0 and 1 move to fresh frames with equal bytes and equal low ten bits, all else translates identically, and the parent is unchanged |
| AddressSpaces.DemandPagedBy | trap.c:110-119 | A served fault leaves a zero page in a fresh frame with R, W, X and U and changes no other lookup |
| SpaceRuns.StepKeepsGood | proc.c:211-403 | Every step (exec root, clone, mapped page, user store, heap page, heap store) keeps the sharing discipline |
| SpaceRuns.MapIsConfined | vmm.c:9-44 | A mapping changes no translation and no byte of a root beyond the mapped page, and there only of the roots that reach it through the same table |
| SpaceRuns.FillIsConfined | proc.c:235-247 | Likewise for stores to the frame of a user page |
| SpaceRuns.StepIsConfined | proc.c:211-403 | A step changes no translation and no byte of any root that was there, except at the page it is about, in the roots that use it |
| SpaceRuns.StepKeepsRoles | proc.c:211-403 | No step takes a root, a table or a user page apart |
| SpaceRuns.WindowCoherentInRuns | proc.c:400-403 | In every run, a root built at any step is a root at every later one and there translates slots 2 and up as the kernel root does |
| SpaceRuns.HeapMappedInRuns | heap.c:24-37 | In every run, heap pages mapped after a table was built are mapped in that table |
| SpaceRuns.IsolatedInRuns | proc.c:211-253 | In every run, while no step goes through root t itself (nor, in slot 0 of an exec-built t, through another such root), every user address of t translates and reads as it did |
| SpaceRuns.ClonedTablesAreIsolated | proc.c:211-253 | For a table made by fork: only mappings and stores through it change its user bytes |
| SpaceRuns.PathOnIsConfined | proc.c:393-449 | Steps on one root leave the translations and bytes of every other root alone, but for slot 0 of exec-built tables |
| UserMode.UserReachesOwnPages | proc.c:235-247 | What an access in user mode reaches is a user page owned by the leaf of this address: no table, no bitmap, no kernel memory |
| UserMode.StepKeepsWindowClosed | heap.c:29-37 | Every step keeps the U bit off all leaves from 0x80000000 up |
| UserMode.KernelPartIsClosed | vmm.c:46-64 | In every run no access in user mode, through any root, translates in root slots 2 and up |
| UserMode.ServedFaultIsOver | trap.c:110-119 | After a served page fault every access in user mode to the address translates, to the fresh frame |
| UserMode.ForkKeepsAccess | proc.c:211-253 | A clone permits at every address, for every access and mode, exactly what its source permits |
| UserMode.SegmentInUserMode | elf.c:35-57 | At each byte of a loaded segment the program may do exactly what bits 0 (X), 1 (W) and 2 (R) of p_flags say, as the hardware reads them, and finds the byte of the file, or 0 past filesz |
| UserMode.StackInUserMode | proc.c:414-414 | The program may read and write each byte of its stack page and may not execute it |
| UserMode.ArgvInUserMode | proc.c:416-439 | Following its stack pointer with loads that the hardware allows, the program finds the bytes and terminator of each argument, and the null pointer after the last |
| KernelMode.StepKeepsLeaves | vmm.c:37-43 | No step ever takes back or changes a translation that a root has, nor its permissions |
| KernelMode.StepKeepsWired | vmm.c:49-64 | Exec roots, clones and all else keep RAM and devices mapped to themselves, with R, W, A, D and X for RAM alone |
| KernelMode.KernelReachesAll | vmm.c:49-64 | In every run, through every root, supervisor mode reads, writes and executes 0x80000000 to 0x88000000 and reads and writes the UART and PLIC pages at their own addresses; user mode does neither |
| KernelSpaces.KernelSpaces.Boot | vmm.c:46-64 | After boot and the first heap page the discipline holds, the kernel root is the only one and maps RAM and devices to themselves with the right bits, and the heap page is clear and the heap's own |
| KernelSpaces.KernelSpaces.FirstPage | heap.c:50-54 | heap_init's page after vmm_init: from here on the runs of address spaces start |
| KernelSpaces.KernelSpaces.MapUser | elf.c:44-44 | Maps iff unmapped and frames suffice, and keeps the discipline |
| KernelSpaces.KernelSpaces.PageFault | trap.c:90-135 | The exact outcome: resumed, killed or halted by address, table, mapping and free frames; the map call cannot panic on mapping state; existing roots stay, and every other one is left alone (Confined) |
| KernelSpaces.KernelSpaces.NewExecRoot | proc.c:396-403 | A fresh root equal to the kernel root beside the roots there were; panics iff no frame is free |
| KernelSpaces.KernelSpaces.ForkRoot | proc.c:285-287 | The clone joins the isolated tables; a step of the runs above |
| KernelSpaces.KernelSpaces.ExpandHeap | heap.c:24-37 | Every root there was stays one and, like all others, maps the new pages; they are clear, old heap pages keep their contents, and nothing outside the heap changes |
| KernelSpaces.KernelSpaces.HeapPage | heap.c:29-37 | One page with R and W and no more is added at the end of the heap window and nothing else in it; existing roots stay |
| KernelSpaces.KernelSpaces.UserStore | proc.c:235-247 | A user store changes exactly the aliases of its byte, in all roots |
| KernelSpaces.KernelSpaces.LoadHeap | heap.c:63-85 | A load at a heap address is one that the hardware allows in supervisor mode, and is answered by the frame that belongs to it |
| KernelSpaces.KernelSpaces.StoreHeap | heap.c:43-47 | A store at a heap address is one that the hardware allows in supervisor mode; it changes this word of the heap, no other, and nothing any user address reads |
| HeapPages.StepKeepsHeap | heap.c:24-48 | Every step but a store of the heap keeps all heap pages in place with their contents, each with a frame of its own, and adds only clear pages |
| HeapPages.HeapAccess | heap.c:35-35 | Through every root supervisor mode may load from and store to every heap address, at the frame behind it, and may not execute; user mode may do nothing |
| HeapPages.HeapAccessInRuns | heap.c:24-37 | The same in every run, for all the heap there is at that step |
| HeapPages.HeapKeptInRuns | heap.c:24-48 | The same over every run: exec, fork, faults, user stores and growth never change a heap word |
| HeapPages.PutWord | heap.c:43-47 | A store changes the word at its address and no other heap word |
| HeapPages.WorkedKeepsHeap | proc.c:393-449 | In particular exec and demand paging leave the heap alone |
| ElfLoader.LoadPage | elf.c:41-58 | One page reads as the image there; the rest of the address space is unchanged, and only steps on this root are made |
| ElfLoader.FillPage | elf.c:46-57 | The page's frame holds the file's part of the page, zeros elsewhere |
| ElfLoader.LoadSegment | elf.c:27-58 | Every byte from vaddr to vaddr + memsz is the file's below filesz and 0 above, with the segment's permissions; only steps on this root are made |
| ElfLoader.LoadElfMap | elf.c:20-60 | The same for all PT_LOAD segments on disjoint pages (System V gABI, chapter 5); nothing outside them changes in this address space, and every other root translates and reads as before but for the shared slot 0 |
| ElfLoader.InPlaceKept | elf.c:24-59 | A loaded segment survives later work that leaves its pages alone |
| ElfLoader.PagesOfSegment | elf.c:32-33 | The pages that are mapped are those that hold a byte of the segment |
| ElfLoader.FreshPageReads | elf.c:42-44 | A newly mapped page reads as the contents of its frame, with the permissions asked for |
| ExecImage.ReadStringAt | proc.c:422-431 | A string with its terminator on the page reads back as itself |
| ExecImage.StringOffsetsOrdered | proc.c:427-427 | The strings lie one after the other and end at the top of the page |
| ExecImage.VectorMakesArgv | proc.c:433-439 | Vector and strings together decode to the original argv |
| ExecImage.PushStrings | proc.c:419-431 | Every string lies at the address recorded for it |
| ExecImage.PushVector | proc.c:433-439 | sp is 8-aligned, inside the page, below the strings; decoding from it gives back argv and a null |
| ExecImage.MakeStack | proc.c:409-439 | The same through the new address space, the page having the bits V, R, W, U, A and D |
| ExecImage.Exec | proc.c:393-449 | Fails, changing nothing, iff the magic is wrong; else the image and the arguments are in place together in a fresh root, and every other root stays and is left alone but for slot 0 of exec-built ones |
| Heap.BlocksAreDisjoint | heap.c:14-18 | Two distinct blocks of the list share no word |
| Heap.CutKeepsForm | heap.c:69-78 | Splitting a block keeps the list acyclic and the partition of the heap |
| Heap.CutTakes | heap.c:69-80 | Splitting and taking a block touches no live payload and makes this one block live |
| Heap.GrowthKeepsForm | heap.c:42-47 | Pushing the new pages as one block keeps list and partition |
| Heap.FlagStored | heap.c:80-80 | A store to is_free keeps list, partition and every payload |
| Heap.PutKeepsForm | heap.c:83-83 | A client's store inside its payload touches no header and no other payload |
| Heap.StepKeepsHeldWord | heap.c:56-103 | One call keeps every held word that it is not a store to |
| Heap.PayloadIsPrivate | heap.c:56-103 | In every run a word of a live payload holds what its owner last stored there |
| Heap.HeldOnce | heap.c:56-103 | No word is held through two blocks at once |
| Heap.KernelHeap.constructor | heap.c:50-54 | One free block over the first page |
| Heap.KernelHeap.Load | heap.c:63-85 | What a load through the kernel table returns is the heap word of the model |
| Heap.KernelHeap.Put | heap.c:43-47 | A store through the kernel table changes this word of the model and keeps all others tied to memory |
| Heap.KernelHeap.MapPages | heap.c:24-37 | The heap grows by the rounded size, by words that read as 0 in memory |
| Heap.KernelHeap.Split | heap.c:70-78 | Five stores to memory cut the block as the model says |
| Heap.KernelHeap.StoreWord | heap.c:83-83 | A client's store to its own payload |
| Heap.QuietKeepsWords | heap.c:24-48 | Over any steps of exec, fork, faults and user stores every word of the heap stays what its address translates to |
| Heap.KernelHeap.Survives | heap.c:24-48 | So a valid heap is valid after them |
| Heap.KernelHeap.SurvivesWork | proc.c:393-449 | The same for the work of exec and of page faults on one root |
| Heap.KernelHeap.Expand | heap.c:24-48 | Old words stay; the new first block fits the request |
| Heap.KernelHeap.Find | heap.c:63-86 | The first block of the list that is free and large enough, NULL iff there is none |
| Heap.KernelHeap.Take | heap.c:67-84 | The block becomes live, at least as large as asked and at most 31 bytes larger; all other live blocks stay as they are |
| Heap.KernelHeap.Kmalloc | heap.c:56-93 | First fit, 8-aligned, at most one expansion by exactly the rounded size, panics only without frames; every live payload is kept and no user address changes |
| Heap.KernelHeap.Kfree | heap.c:95-103 | Exactly this block stops being live, one word changes, and the block can be taken again |
| ProcTable.ProcTable.AllocProc | proc.c:33-55 | Takes the first unused slot, -1 iff there is none, with fresh stamps |
| ProcTable.ProcTable.Fork | proc.c:278-378 | The child is runnable, queued last and names its parent; nothing changes without a slot |
| ProcTable.ProcTable.ProcInit | proc.c:472-486 | The init process runs in slot 0 and every other slot is unused |
| ProcTable.ProcTable.RRSelect | proc.c:66-76 | The runnable slot other than current that comes first from next_pid on |
| ProcTable.ProcTable.FCFSSelect | proc.c:78-91 | The runnable slot queued longest ago, lowest slot on a tie, and the fallback to current |
| ProcTable.ProcTable.MLFQSelect | proc.c:93-102 | The runnable slot of best priority below NQUEUE, lowest slot on a tie |
| ProcTable.ProcTable.Scheduler | proc.c:104-111 | The choice of the policy in force |
| ProcTable.ProcTable.Yield | proc.c:113-144 | The whole new table, for every choice |
| ProcTable.ProcTable.SchedTick | proc.c:146-158 | The whole new table, as the value whose laws are Slices.SliceEnds and its neighbours |
| ProcTable.ProcTable.Block | proc.c:160-165 | Current sleeps on the channel and another choice runs |
| ProcTable.ProcTable.WakeUp | proc.c:167-175 | Exactly the sleepers of the channel become runnable, with stamps in slot order |
| ProcTable.ProcTable.OrphanChildren | proc.c:183-185 | Exactly the children lose their parent pointer |
| ProcTable.ProcTable.Exit | proc.c:177-188 | Zombie, parent woken, children orphaned, another choice runs |
| ProcTable.ProcTable.WaitPass | proc.c:190-208 | Reaps the first matching zombie child and returns its pid and code; sleeps iff there is none but some slot counts as a kid; -1 iff none does |
| ProcTable.ProcTable.DoKill | proc.c:508-528 | Refuses exactly negative, unknown, kernel-only and current targets; else the target dies with code -9 |
| ProcTable.ProcTable.SemWaitPass | proc.c:456-459 | Takes a unit iff the count is positive, else sleeps |
| ProcTable.ProcTable.SemSignal | proc.c:461-464 | Adds one and wakes exactly the sleepers of the semaphore |
| ProcRuns.SchedulerIsTotal | proc.c:93-102 | A policy gives up only when nothing is runnable |
| ProcRuns.WokenQueued | proc.c:167-175 | Woken processes get distinct stamps behind all others |
| ProcRuns.DieFacts | proc.c:177-188 | Slot by slot what a death does: the zombie, its parent, its children, the others |
| ProcRuns.InitHolds | proc.c:472-486 | The invariant holds at boot |
| Slices.TicksUseUpSlice | proc.c:146-150 | In every run, fewer ticks than the slice has left change the slice and nothing else |
| Slices.SliceEnds | proc.c:150-156 | The tick that uses it up sets need_resched; under MLFQ it moves the process down from level 0 to 1 with 2 ticks, else to 2 with 4; otherwise the priority stays |
| Slices.FreshProcessSinks | proc.c:146-158 | The whole table after any number of ticks of a fresh MLFQ process: level 1 after one, level 2 after three and ever after |
| Slices.SwitchCharges | proc.c:113-127 | A switch gives ten ticks under the other policies; under MLFQ it raises the process it leaves by one level with one tick, if no slice has ended yet, and leaves the other one's slice alone |
| Slices.TenTicks | proc.c:127-151 | Under round robin and FCFS a process that was switched to is to be replaced at its tenth tick and not before |
| Slices.ChildIsFresh | proc.c:33-55 | Everything about a forked child: level 0, one tick, no exit code, runnable, queued now, its parent |
| Slices.ChildSinks | proc.c:146-158 | Fork, switch to the child, three ticks: it is on level 2, and after two it was not |
| ProcRuns.StepKeepsInv | proc.c:113-208 | Every step of every operation keeps the invariant: a parent forest by creation time, no lost wakeup, counted semaphores, at most current running |
| ProcTheorems.RunKeepsInv | proc.c:113-208 | The invariant holds in every reachable state |
| ProcTheorems.SleepersMissNothing | proc.c:160-208 | A process asleep in wait has no matching zombie child; asleep on a semaphore, its count is at most 0 |
| ProcTheorems.CountsAddUp | proc.c:451-464 | In every run the count is initial + signals - completed waits, and never negative when it started non-negative |
| ProcTheorems.OnlyCurrentRuns | proc.c:113-158 | Only current runs, and it fails to run only when nothing is runnable |
| ProcTheorems.StepKin | proc.c:177-208 | A used slot keeps incarnation, pid and parent until its death or its parent's |
| ProcTheorems.ZombieNeverRuns | proc.c:104-144 | A zombie is never switched to |
| ProcTheorems.OrphanZombieStays | proc.c:183-185 | A zombie without a parent is never reaped |
| ProcTheorems.ReapedOnceByCreator | proc.c:190-208 | Each incarnation is reaped at most once, by the incarnation that forked it |
| ProcTheorems.ReapRecordsChild | proc.c:198-203 | A reap hands over the child's own stored code |
| ExitCodes.OnlyKillOverwrites | proc.c:508-528 | A zombie that is not reaped keeps its exit code over a step iff the step is no kill of it, or the code was -9 already |
| ExitCodes.ZombieCanBeKilled | proc.c:508-528 | Such a kill of a user process is allowed whenever the zombie is not current |
| ExitCodes.KillFindsPid | proc.c:508-513 | do_kill finds the process in slot pid iff that slot is in use |
| ExitCodes.CodeIsLost | proc.c:508-528 | Under every policy there is a run from boot (exec, fork, yield, exit, kill) in which the parent's only child exits with any code and then holds -9, unread |
| ExitCodes.ZombieHoldsLastCode | proc.c:177-188 | In every run a zombie holds the code of the last exit or kill of its incarnation |
| ExitCodes.ReapHandsOverLastCode | proc.c:198-203 | In every run a reap hands over the code of the last exit or kill of the incarnation that was reaped |
| Waiting.WaitAgainSleeps | proc.c:194-206 | Right after a reap, a second wait for that pid finds no child but the reaped slot, and its next pass sleeps |
| Waiting.WaitsOn | proc.c:190-208 | In every run it does not return as long as its process is not killed and no slot it counts is used again |
| Waiting.NoPassReturns | proc.c:190-208 | In such a state a pass neither reaps nor returns -1 |
| Waiting.ReuseEndsIt | proc.c:33-55 | A fork of another process into the one slot that counts leaves the waiter in its wait with nothing that counts |
| Waiting.NothingCountsStep | proc.c:190-208 | From there on nothing comes to count for it again |
| Waiting.ChildDeathWakes | proc.c:177-188 | A step wakes a process asleep in wait iff it is the exit or kill of a child, or its own kill |
| Waiting.OnlyNoneIsLeft | proc.c:190-208 | With nothing that counts the next pass returns -1 |
| Waiting.PassTakes | proc.c:190-208 | A pass of wait(q) reaps iff there is a zombie child that fits, and then the one in slot q or, for -1, in the lowest slot |
| ProcTheorems.NoWaitingChain | proc.c:33-55 | No endless chain of waiters: children are younger than parents |
| ProcTheorems.NoDeadlock | proc.c:177-208 | In a reachable state with sound waits and no semaphore sleeper, a live process implies one that can run |
| ProcTheorems.SoundStepKeepsGoodWaits | proc.c:177-208 | Waits entered with an unreaped matching child stay that way |
| ProcTheorems.SoundStepKeepsSemaphoresFree | proc.c:456-459 | Without a sleep on a semaphore nobody sleeps on one |
| ProcTheorems.NoDeadlockInRuns | proc.c:177-208 | The same over whole runs from boot |
| Scheduling.QueueIsUnique | proc.c:78-91 | The table determines the queue |
| Scheduling.QueueExists | proc.c:78-91 | With distinct stamps there is one |
| Scheduling.FirstComeTakesHead | proc.c:78-91 | FCFS takes its head |
| Scheduling.YieldPopsAndPushes | proc.c:113-126 | yield pops the head and appends the process it leaves, if that still runs |
| Scheduling.WokenAppend | proc.c:167-175 | wakeup appends the sleepers in slot order |
| Scheduling.ForkAppends | proc.c:33-55 | fork appends the child |
| Scheduling.DeathDeletes | proc.c:508-528 | A death deletes the process and appends the parent that waited for it |
| Scheduling.NotOvertaken | proc.c:78-91 | Under FCFS no step runs a process while one queued earlier waits |
| SchedulingRuns.QueueStep | proc.c:78-144 | Under FCFS every step of the kernel takes the queue to the one QueueAfter says: popped by a switch, appended to by fork and wakeup, cut by a death |
| SchedulingRuns.FifoInRuns | proc.c:78-144 | Hence in every run from boot the runnable processes are that FIFO queue |
| Scheduling.SelectionComesNearer | proc.c:66-76 | Choosing another process brings a waiting one strictly nearer |
| Scheduling.ChosenWithinOneLap | proc.c:66-76 | A process that stays runnable is chosen within N calls of the selector |
| Scheduling.NextPidMovesOnlyInYield | proc.c:70-70 | No other step moves next_pid, so the calls above are consecutive |
| SchedulingRuns.BypassStep | proc.c:66-76 | Under round robin a step that leaves a process waiting brings it nearer by one if it is a switch, and never farther |
| SchedulingRuns.BypassBounded | proc.c:66-76 | Hence in every run a process that stays runnable sees fewer switches than there are slots |
| Starvation.YieldKeepsTwoAhead | proc.c:93-126 | Under MLFQ, with two processes ahead of p in the order of priority and slot, a yield switches to another than p and leaves two ahead |
| Starvation.YieldComesRound | proc.c:93-126 | Without two ahead p is chosen at this yield or at the next |
| Starvation.CalmStepKeepsTwoAhead | proc.c:93-208 | Fork, signal, reaping and entering the kernel keep two ahead as well; only a tick, a death or a sleep can change it |
| Starvation.NeverRuns | proc.c:93-208 | Hence in a run without ticks, deaths and sleeps, however long, p never runs |
| Starvation.StarvedIff | proc.c:93-126 | In any run of at least two yields p is passed over throughout iff two are ahead of it at the start |
| Starvation.TwoForks | proc.c:33-55 | After boot and two forks, all priorities equal, two are ahead of the process in slot 2 |
| Starvation.StarvingRun | proc.c:93-126 | From boot there are runs of any number of yields in which that process is RUNNABLE and never runs |
| CStrings.TokensConcat | string.c:55-68 | Splitting at a delimiter splits the tokens |
| CStrings.TokensAreWords | string.c:55-68 | A token is non-empty and free of delimiters |
| CStrings.Tokenizer.Strtok | string.c:56-68 | The next token, terminated in place, NULL iff none is left; the cursor keeps the rest |
| CStrings.Strrchr | string.c:78-85 | The last occurrence, NULL iff there is none |
| CStrings.SameNameIffPadsEqual | string.c:27-40 | strncmp on 28 bytes of strncpy-made names is equality of the padded names |
| CStrings.Strncmp | string.c:27-33 | The loop decides that relation |
| FsModel.CountUpdate | fs.c:165-172 | How one descriptor's change moves the number of descriptors of an inode |
| FsFacts.GrowthKeepsRegions | fs.c:29-45 | New data inside its own region, or a newly claimed one, keeps all regions apart |
| FsFacts.DirAddKeepsOk | fs.c:29-45 | dir_add_entry keeps the invariant, where it fails too |
| FsFacts.TruncateKeepsOk | fs.c:147-149 | A truncation keeps it |
| FsFacts.CloseKeepsOk | fs.c:165-172 | Closing keeps the counts exact and drops one reference |
| FsFacts.DupKeepsOk | fs.c:317-327 | Duplicating keeps the counts exact |
| FsFacts.UnlinkKeepsOk | fs.c:266-274 | Unlinking keeps every valid descriptor on a used inode |
| FsFacts.WriteKeepsOk | fs.c:204-224 | A write keeps regions disjoint and bytes past the size zero |
| FsFacts.WriteContents | fs.c:204-224 | A write lays its bytes over its own file, a gap reading as zeros, and leaves every other inode's contents alone |
| FsPaths.SplitAgreesWithTokens | fs.c:124-134 | The tokens of a path are those of its strrchr parent followed by its name |
| FsPaths.ResolveThroughParent | fs.c:60-94 | A path resolves as its parent does and then by its last token |
| FsPaths.LookupAfterAlloc | fs.c:15-27 | Handing out a number changes a lookup exactly where a stale entry holds it |
| FsPaths.LookupAfterAdd | fs.c:29-58 | A new entry changes only lookups that found nothing, in its directory and under its name |
| FsPaths.CreateThenResolve | fs.c:119-141 | After a creation the path leads to the new inode iff the parent is a directory, its path passes no stale entry of that number, and the entry was added |
| FsPaths.MkdirThenResolve | fs.c:243-264 | After any mkdir that returns 0 the path leads to the new directory and path/.. back to the parent iff the new directory had room for its two entries and LeadsToNew holds of the old state: no stale entry on the way, a last component other than "" and ".", room in the parent; or a stale entry that leads into the new directory and stays there |
| FsPaths.WalkAfterMkdir | fs.c:60-94 | Every walk after mkdir, by a walk of the old state that enters the new directory at a stale entry and leaves it by "." and ".." alone |
| FsPaths.LookupInNewDir | fs.c:256-258 | A new directory answers "." with itself and ".." with its parent, iff they found room, and nothing else |
| FsPaths.NoStaleNoDiversion | fs.c:47-58 | Without stale entries no walk is diverted |
| FsBoot.InitIsOk | fs.c:96-117 | The state of fs_init satisfies the invariant and has no stale entry, so the theorems on runs without unlink start there |
| FsReuse.CreateTop | fs.c:119-141 | Creating a new name in the root takes the lowest inode and descriptor and appends one entry |
| FsReuse.UnlinkTop | fs.c:266-274 | Unlinking a closed file of the root frees its number and leaves the entry |
| FsReuse.CreateMayNotResolve | fs.c:266-274 | After creating, closing and unlinking /x and /d and making the directory /d, from fs_init on, the creation of /d/x succeeds and its path leads nowhere |
| FsRuns.CallKeepsLive | fs.c:119-141 | Only fs_unlink makes directory entries stale |
| FsRuns.CreatedPathsResolve | fs.c:119-141 | After any run without unlink a created path resolves iff the parent is a directory with room |
| FsRuns.CallKeepsFile | fs.c:119-327 | A call that does not write, truncate or remove a file leaves its bytes alone; all ten calls are meant |
| FsRuns.UntouchedFileKept | fs.c:119-327 | The same over every run |
| FsRuns.SameDirsSameResolve | fs.c:60-94 | Resolution depends on directory contents and on which inodes are used, on nothing else |
| FsRuns.CallKeepsResolve | fs.c:119-327 | Any call but unlink leaves every path that leads somewhere leading there, where no entry is stale |
| FsRuns.RunKeepsResolve | fs.c:119-327 | The same over every run without unlink |
| FileSystem.FileSystem.constructor | fs.c:96-117 | The invariant holds at boot and the whole state is FsBoot.FsInit; . and .. of the root lead to it; descriptors 0 to 2 name the terminal |
| FileSystem.FileSystem.AllocInode | fs.c:15-27 | The lowest unused number, -1 iff there is none |
| FileSystem.FileSystem.DirAddEntry | fs.c:29-45 | Equals the model, failures included |
| FileSystem.FileSystem.LookupEntry | fs.c:47-58 | The first live entry of that name |
| FileSystem.FileSystem.ResolvePath | fs.c:60-94 | The strtok loop equals folding lookups over the path's tokens |
| FileSystem.FileSystem.SplitPath | fs.c:124-134 | Equals the model's parent and name |
| FileSystem.FileSystem.FindOrCreate | fs.c:119-150 | Equals the model, with the file created or truncated even where the open then fails |
| FileSystem.FileSystem.Open | fs.c:119-163 | The whole new state and the result, invariant kept |
| FileSystem.FileSystem.OpenDir | fs.c:276-296 | The whole new state and the result, invariant kept |
| FileSystem.FileSystem.Close | fs.c:165-172 | The whole new state and the result, invariant kept |
| FileSystem.FileSystem.Dup2 | fs.c:317-327 | The whole new state and the result, invariant kept |
| FileSystem.FileSystem.Read | fs.c:174-202 | The bytes from the offset on, as many as there are; terminal input one byte at a time with Ctrl-D as end |
| FileSystem.FileSystem.Write | fs.c:204-224 | The whole new state; -1, changing nothing, iff the file would grow too long or no region is left |
| FileSystem.FileSystem.Lseek | fs.c:226-241 | Returns and sets the position asked for, counted from start, offset or end, or the nearest end of the file; exact failures |
| FileSystem.FileSystem.Mkdir | fs.c:243-264 | The whole new state and the result, invariant kept |
| FileSystem.FileSystem.Unlink | fs.c:266-274 | The whole new state; what it frees no valid descriptor names |
| FileSystem.FileSystem.Readdir | fs.c:298-315 | The next live entry, 0 iff there is none |
| FileSystem.UnlinkedIsClosed | fs.c:269-273 | An inode that is open is never freed |
| FsLaws.SeekThenRead | fs.c:226-241 | After lseek to byte t a read of n gives the bytes from t on; before the start it settles at 0, past the end at the end; nothing else changes |
| FsLaws.OpenExisting | fs.c:119-163 | Directories are refused; a file opens iff a descriptor is free, at its start on the lowest one; its bytes go iff it is truncated; no other inode changes |
| FsLaws.OpenMissing | fs.c:119-123 | Without O_CREAT a path that leads nowhere is refused |
| FsLaws.OpenCreates | fs.c:119-163 | With O_CREAT it is opened iff the parent path leads somewhere and an inode and a descriptor are free, as a new empty file |
| FsLaws.OpenDirOpensDirs | fs.c:276-296 | fs_opendir opens directories, all of them and nothing else, while a descriptor is free |
| FsLaws.UnlinkedIsGone | fs.c:266-274 | fs_unlink succeeds iff the path leads to a file that no descriptor names; the path then does not lead there any more and all else stays |
| FsRuns.DuplicatedFds | fs.c:317-327 | After dup2 the new descriptor is a copy of the old one, offset included, and no other descriptor changes |
| FsRuns.DuplicatedFiles | fs.c:317-327 | dup2 leaves every file and directory alone |
| FsRuns.ClosedFiles | fs.c:165-172 | So does closing a descriptor |
| FsLaws.ReaddirListsAll | fs.c:298-315 | Successive fs_readdir calls show the live entries in order, each once, and in the end all of them |
| FsLaws.CutOfPad | fs.c:308-308 | The name they show is the one the entry was made under, its first 28 bytes |
| FsLaws.NamesByFirst28 | fs.c:29-58 | Two names are one to the file system iff their first 28 bytes agree |
| FsStreams.OutputIsAppended | fs.c:204-224 | After any run whose only calls on a file are writes through one descriptor at its end, the file holds what it held and then the bytes of the writes that succeeded |
| FsStreams.AllArrives | fs.c:204-224 | All that such a run writes, in chunks of any size, arrives iff it fits 64 KiB together with what was there and, for a file without a data region, there is space for one when the first bytes come |
| FsStreams.EffectCosts | fs.c:29-45 | How much data space each call can claim, empty writes and directory entries included |
| FsStreams.RoomMakesSpace | fs.c:215-219 | That space is there if, at the start, one file more than the calls before can claim is free |
| FsStreams.InputIsSlice | fs.c:174-202 | In any run that leaves a file and one descriptor's offset to reads through it, these return the file from the offset on, as much as they ask for in all or as there is |
| FsStreams.TruncatesIff | fs.c:142-149 | Opening an existing non-empty file empties it iff O_TRUNC comes with the bit of O_RDONLY or of O_WRONLY |
| FsStreams.TruncatingOpenIsEmpty | fs.c:142-161 | A truncating open leaves an empty file and a descriptor at its start |
| ShellModel.AppendedRedirection | kernel.c:181-182 | The redirection appended to half a pipe takes effect iff the half leaves room for it and does not end in one |
| ShellModel.SameDescriptorsSameCounts | fs.c:165-172 | Exact reference counts are determined by the descriptors |
| ShellModel.CommandLeavesFd | kernel.c:160-162 | Each descriptor is as found after restore, unless it was a save slot in use |
| ShellModel.CommandLeavesDescriptors | kernel.c:59-163 | On every path, with any neutral child, all descriptors and reference counts are as found iff 12 and 13 were free when taken |
| Shell.TidyIsNeutral | kernel.c:124-158 | A child that closes what it opens and uses 0 to 2 otherwise is neutral, whatever it does to files |
| Shell.CommandIsClean | kernel.c:55-163 | The theorem above for such a child, or none |
| Shell.Shell.ReadCommand | kernel.c:64-77 | The strtok loop computes the words and redirections of the line |
| ShellLine.LineIsUnderstood | kernel.c:64-77 | argv is the first fifteen words, in order, that are neither marks nor the word after a mark; each redirection is the word after its last mark that the loop reaches |
| ShellLine.PlainLine | kernel.c:64-77 | A line without < and >: its first fifteen words, and no redirection |
| ShellLine.CutAtBar | kernel.c:172-180 | A line is cut at its first bar |
| Shell.Shell.DoRedirect | kernel.c:80-89 | Opens, duplicates and closes as the model says |
| Shell.Shell.ExecuteCommand | kernel.c:55-163 | The whole new file system; descriptors and counts as found iff the save slots were free; a program is started iff there is a command, its redirections open and fork succeeds, from /bin/ unless its name begins with a slash or a dot, with the words of the line as arguments |
| Shell.Shell.RunLine | kernel.c:165-188 | A line without a bar runs once; otherwise the two halves run one after the other with the pipe's redirections |
| ShellPipe.TruncationKeepsResolve | fs.c:142-149 | A truncating open of a file that exists leaves its path leading to it |
| ShellPipe.RedirectLeads | fs.c:119-149 | Without stale entries, "> path" of a path that exists or can be created opens the file the path then leads to |
| ShellPipe.PathLeads | kernel.c:179-183 | Without unlink the path still leads there when the left child is done, whatever else it did |
| ShellPipe.ExecIsAllowed | proc.c:381-390 | The open, read and close by which exec fetches the program are among what the left child may do |
| ShellPipe.ExecIsAllowedRight | proc.c:381-390 | And among what the right child may do |
| ShellPipe.RoomBefore | kernel.c:179-183 | Enough data space before the command is enough when the left child's first bytes come |
| ShellPipe.LeftFillsFile | kernel.c:179-183 | Whatever else the left child does, exec's own reads included, the pipe's file then holds the bytes that its writes to standard output put there, which are all it wrote iff that fits; the descriptors are as found |
| ShellPipe.PipelineDelivers | kernel.c:179-183 | For any tidy children: what the reads of the right child from standard input return is, in all, what arrived from the left child, as far as they ask, and after that nothing; if they ask for enough they return all the left child wrote, iff it is at most 64 KiB and there was data space |
| ShellPipe.PipeLineDelivers | kernel.c:165-188 | The same for the line as typed |

## Left out

- Assembly, registers and kernel stacks: a context switch is the change of `current`; the stack and register copies of
  fork (proc.c:299-340) and the trap frame of fork_from_trap are not modelled, nor is fork's branch for a clone that
  returns 0, which cannot happen because the allocator panics first.
- UART, PLIC, SBI, timer and printf: terminal input and output are byte sequences.
- TLB flushes, satp and sstatus writes, memory fences: no state in a sequential model.
- syscall.c, userlib.c and the programs under user/: forwarding and test drivers.
- Timer ticks in the middle of an operation: a tick is a step of its own between others.
- do_ps: printing.
- Sv39.LookupAgreesWithHardware: of the two ways that section 4.3.1 allows for the A and D bits it is the one that faults; the kernel sets both in every leaf. Physical memory protection is not modelled.
- ElfLoader.LoadElfMap: the program headers are given as values; reading them out of the file's bytes is not modelled. Premises are those of the gABI for PT_LOAD, some permission bit, user addresses, disjoint pages and pages not mapped before.
- ExecImage.Exec: starts after the file has been read; the path, the kmalloc'ed buffer and the descriptor before it (proc.c:381-391) are not modelled. That argv fits the page and has at most 16 strings is a premise.
- Heap.KernelHeap.Kmalloc: sizes that wrap 64 bits and a heap grown past 4 GiB are outside the premises.
- Heap.KernelHeap.Kfree: the source allows any pointer; the contract asks for NULL or a block of the list.
- ProcTable.ProcTable.Fork: the failure of the address-space copy is not modelled; the copy itself is KernelSpaces.KernelSpaces.ForkRoot.
- ProcTheorems.NoDeadlockInRuns: claims progress only for runs in which each wait is entered with an unreaped matching child and no process sleeps on a semaphore; without that it is false of the code.
- ProcTheorems.CountsAddUp: semaphore counts are unbounded integers.
- Scheduling.ChosenWithinOneLap: the calls are selections without a change of the waiting process in between; over the runs of the kernel that is SchedulingRuns.BypassBounded.
- FileSystem.FileSystem.Read: counts are not negative, and a read of the terminal needs input to come.
- FileSystem.FileSystem.Write: the count is the length of the buffer and not negative.
- FileSystem.FileSystem.Readdir: not for a descriptor of the terminal, where the source indexes its table with -1.
- FsPaths.CreateThenResolve: paths of at most 255 bytes.
- FsPaths.MkdirThenResolve: paths of at most 252 bytes, so that path/.. still fits the buffers.
- Shell.Shell.ExecuteCommand: the length limits of the path and argument buffers (kernel.c:94-107) and the process that runs the child are not modelled; that the child's calls begin with exec of the program is not demanded of them; the child is any sequence of file-system calls, and a terminal read without input is passed over.
- Shell.Shell.RunLine: the halves must fit the buffers lbuf and rbuf.
- ShellPipe.PipelineDelivers: premises are that both commands start, that the left child touches the pipe's file only by writing to its standard output and the right one only by reading its standard input, and that the path leads to the file when the left child is done (ShellPipe.PathLeads derives this where there is no unlink).
- Directory and file names longer than 28 bytes agree when their first 28 bytes do, as in the source.
