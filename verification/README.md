# A verified model of the Toasty Unix kernel's resource core

This project models, in Dafny, the parts of the kernel that have to agree across tasks, address spaces
and whole runs, and proves what they promise. `dafny verify dfyconfig.toml` checks the whole project.

- **Open files, pipes and pipelines.** `Pipe.dfy` is the 4 KiB ring. `Descriptors.dfy` to `Sharing.dfy` are
  the reference-counted open files in the tables of any number of tasks, as a machine whose steps are single
  table calls and single pipe passes between two waits. `DescriptorAnswers.dfy` says what each call answers.
  `VfsKernel.dfy` is the same machine updated in place. `ShellOps.dfy` and `Pipeline.dfy` are the shell's descriptor
  choreography, run while other tasks take any steps; `CommandLine.dfy` is its parser, and `Redirections.dfy` goes
  from the tokens to the stages' slots.
- **Memory.** `Pmm.dfy` is the bitmap of frames with its search hint. `PageTables.dfy` to `VmmKernel.dfy` are
  the four-level tables (section 4.5 of the Intel SDM, volume 3A), spaces cloned from the root, and the
  reserved kernel tables; `AccessRights.dfy` is about their access bits and `LargePages.dfy` about what the walk does
  to a large page. `Mmap.dfy` is anonymous mmap with its rollback. `HeapMemory.dfy` to `Kmalloc.dfy` are the kernel heap, down to the words of the block headers,
  and `HeapRuns.dfy` two of its runs.
- **Program start.** `StackImage.dfy` is the initial stack with the C runtime as its reader, `ElfLoad.dfy` the
  loading of segments through the page tables of a new space, and `ElfTable.dfy` the program header table in the file.
- **Scheduling.** `Scheduler.dfy` and `SchedulerKernel.dfy` are the round-robin scheduler and task lifecycle.
- **File names.** `VfsTree.dfy` and `VfsTreeKernel.dfy` are the node tree, `Ustar.dfy` and `Rootfs.dfy` the
  mounting of the root image, `PathNames.dfy` and `PathResolve.dfy` the shell's path normalisation.
- **Matching.** `GrepSyntax.dfy`, `Grep.dfy` and `GrepPatterns.dfy` are grep's continuation-passing matcher.

State that the kernel updates in place is a class whose methods are proved against functions on values; the
theorems are about those functions and about their runs.

Hypotheses, each a precondition or part of an invariant where it is used:

- One table call, and one pass of a pipe read or write between two waits, is one step; tasks interleave between
  steps. sys_mmap, sys_munmap, kmalloc, kfree, krealloc, el_load and the mount each run uninterrupted, and so do the
  assignment of g_elf_fd in elf_exec and the two reads that follow it (lines 108 to 111); between those reads and the
  close, other tasks run and may assign it.
- The boot loader maps large pages only in the kernel half, below the top level. The mapping theorems are for
  pages whose walk meets no large page (`AddressSpaces.Walkable`): all of the user half, and what the boot loader
  left free of them in the kernel half; `AddressSpaces.RunClear` keeps it so, and `LargePages.dfy` says what
  happens otherwise.
- Usable memory regions are disjoint (`Pmm.DisjointFits`), and frame 0 is not among them.
- Mapping a heap page succeeds: the heap's tables were reserved at boot (`AddressSpaces.ReservedHeap`).
- The shell starts with its three standard slots open. Every command line that no execve of another task disturbs
  keeps them, so the precondition of `Pipeline.ExecPipeline` holds from boot up to the first that is disturbed.
- That only stage j can write to pipe j holds for pipelines without the builtin `exec` (`Pipeline.AllTame`).
- A builtin leaves the shell's table as it found it, apart from `exec`. A task that is waited for exits at some
  point.

Places where the code does something else than its comments or its callers suggest, each proved as it is:

- The loaders of elf_exec and execve share one global descriptor number. The comment beside it (tus_elf.c, lines 28
  and 29) says that the whole load runs with preemption disabled, but the open and the close do not, so the shell may
  close another slot than the one it opened (`ShellOps.ElfExec`, `ShellOps.LeakFromBoot`).
- A segment that starts at address 0 is mapped and then reported as out of memory (`ElfLoad.Loader.ElLoad`).
- The split of a large page writes the PS bit back (`LargePages.SplitKeepsMapping`).
- A stage that is the builtin `exec` leaves a writer that the pipeline does not wait for
  (`Pipeline.ExecBuiltinShares`).
- A save that fails after an earlier one succeeded is not undone by exec_pipeline (`Pipeline.ExecPipeline`,
  `Pipeline.ClosedInputIsFilled`).
- Opening a file with a full table leaves the file behind (`Sharing.LostExactlyByOverflow`, `ShellOps.LostFromBoot`).
- The pages word of a small heap block is never written, so kfree trusts what the memory held before and releases
  that many pages (`Kmalloc.KernelHeap.Kfree`, `HeapEffects.TouchedBreaks`, `Kmalloc.FirstBlock`,
  `HeapRuns.OwnerWrites`). A large request that fails leaves its first pages mapped beyond the arena
  (`Kmalloc.KernelHeap.AllocLarge`). The merge with the predecessor never happens
  (`Kmalloc.KernelHeap.FreeSmall`).
- An item with minimum 0 makes grep's matcher succeed whatever follows (`Grep.MatchesItem`, `Grep.SureExactly`,
  `GrepPatterns.ZeroMinimum`), and a final dollar sign has no effect on the search (`Grep.DollarIgnored`,
  `Grep.DollarExactly`, `Grep.DollarExample`).
- The class names alnum, cntrl and blank are compared with a wrong length, so no character is in them
  (`GrepPatterns.UnknownNames`).
- A path "" is created as an entry with an empty name, which no lookup finds (`VfsTree.KeyIsComps`).
- A path that the buffer's end cuts need not resolve to itself (`PathResolve.Idempotent`, `PathResolve.CutExample`).
- A mount that reports success may have left out directories for want of memory (`Rootfs.MountedExactly`,
  `Rootfs.DirectoryMissing`).
- After 2^32 task creations a pid comes round again (`Scheduler.DeadForGood`).

## Model

| member | source | states |
|---|---|---|
| Pipes.DrainTakesPrefix | kernel/vfs/vfs.c:493-511 | what one pass of pipe_read takes out, split copy or not, is a prefix of the bytes in the ring, and the rest stays in order |
| Pipes.FillAppendsPrefix | kernel/vfs/vfs.c:513-537 | one pass of pipe_write appends to the bytes in the ring the prefix of the data that fits, across the wrap-around |
| Pipes.PipeBuffer.ReadStep | kernel/vfs/vfs.c:500-510 | the in-place read pass on the 4 KiB buffer takes exactly what the ring model takes and leaves that ring |
| Pipes.PipeBuffer.WriteStep | kernel/vfs/vfs.c:523-534 | the in-place write pass with its two copies leaves exactly the filled ring |
| Descriptors.AttachKeeps | kernel/vfs/vfs.c:272-281 | filling a free slot with a live file and counting it keeps every reference count equal to the number of slots that hold it |
| Descriptors.DetachKeeps | kernel/vfs/vfs.c:283-298 | emptying a slot and dropping its file, freeing file and pipe at zero, keeps all counts exact |
| DescriptorOps.VacateKeeps | kernel/vfs/vfs.c:393-411 | in dup2 the source file is still alive after the target's file was dropped first |
| DescriptorRuns.Dup2Keeps | kernel/vfs/vfs.c:393-411 | dup2 keeps the counting invariant for all pairs of slots, the equal ones and the bad ones too |
| DescriptorRuns.OpenKeeps | kernel/vfs/vfs.c:326-364 | open keeps the invariant, the full table included |
| DescriptorRuns.MakePipeKeeps | kernel/vfs/vfs.c:413-462 | pipe keeps the invariant in all three outcomes |
| DescriptorTheorems.CountsAreHolders | kernel/vfs/vfs.c:272-298 | in every state that any interleaving of calls by any tasks reaches from boot, a slot points at a live file whose refs is the number of (task, slot) pairs on it, and refs_r and refs_w of each pipe are the pairs on that end |
| DescriptorTheorems.PipeIsFifo | kernel/vfs/vfs.c:493-537 | over every run, all bytes accepted by a pipe are all bytes delivered from it followed by what is in the ring, which is never more than 4096 bytes |
| Sharing.StepHolders | kernel/vfs/vfs.c:464-489 | a task holds an open file after a step only if it held it before, or is the child of a spawning holder |
| Sharing.NoWriterNoBytes | kernel/vfs/vfs.c:513-537 | once nobody holds the write end of a pipe, no later run puts a byte into it |
| Sharing.EofCompleteAndPermanent | kernel/vfs/vfs.c:493-499 | when a read reports end-of-file, everything ever accepted has been delivered, no later state has a write end, and no byte ever follows |
| Sharing.ReadProgress | kernel/vfs/vfs.c:500-511 | a read that delivers, delivers at least one byte |
| Sharing.LostExactlyByOverflow | kernel/vfs/vfs.c:359-363 | files that no slot points at never go away, and a run produces one exactly if some open in it met a full table |
| ShellOps.LostFromBoot | kernel/vfs/vfs.c:359-363 | from boot, the fourteenth file that the shell opens and keeps open is lost |
| DescriptorAnswers.WriteAnswer | kernel/vfs/vfs.c:513-537 | a write of some bytes through a write end answers -EPIPE exactly if nobody holds a read end, waits exactly if somebody does and 4096 bytes are in the pipe, and otherwise appends as many of the bytes as there is room for, at least one |
| DescriptorAnswers.ReadAnswer | kernel/vfs/vfs.c:493-511 | a read of some bytes through a read end reports end-of-file exactly if the pipe is empty and nobody holds a write end, waits exactly if it is empty and somebody does, and otherwise takes its first bytes |
| DescriptorAnswers.WrongEnd | kernel/vfs/vfs.c:609-621 | -EBADF for reading a write end or a closed slot, and for writing a read end or a closed slot |
| DescriptorAnswers.NodeAnswer | kernel/vfs/vfs.c:609-624 | a file opened write-only cannot be read and one opened read-only cannot be written |
| DescriptorAnswers.OpenAnswer | kernel/vfs/vfs.c:326-364 | open takes the lowest free slot from 3 on, for a new description with the flags asked for, at the end of the node if they ask for appending and at its start otherwise; all error cases |
| DescriptorAnswers.CloseAnswer | kernel/vfs/vfs.c:366-375 | close empties exactly the slot, or answers -EBADF |
| DescriptorAnswers.DupAnswer | kernel/vfs/vfs.c:377-391 | dup takes the lowest free slot of all; -EBADF, -ENOMEM |
| DescriptorAnswers.Dup2Answer | kernel/vfs/vfs.c:393-411 | dup2 makes the one slot what the other is, for all pairs; -EBADF |
| DescriptorAnswers.PipeAnswer | kernel/vfs/vfs.c:413-462 | pipe takes the two lowest free slots from 3 on, the lower one for reading; the pipe is empty and nobody else holds an end |
| DescriptorAnswers.NoPipe | kernel/vfs/vfs.c:418-459 | without memory or without two free slots pipe answers -ENOMEM and nothing changes |
| DescriptorAnswers.SpawnAnswer | kernel/vfs/vfs.c:481-489 | the child has the next pid and its parent's open files, and no other table changes |
| DescriptorAnswers.ExitAnswer | kernel/vfs/vfs.c:467-477 | exactly the exiting task's table is gone |
| VfsKernel.Vfs.RefFile | kernel/vfs/vfs.c:272-281 | the in-place update is the counted reference of the model |
| VfsKernel.Vfs.UnrefFile | kernel/vfs/vfs.c:283-298 | the in-place update, with its two frees, is the counted release of the model |
| VfsKernel.Vfs.FdAlloc | kernel/vfs/vfs.c:302-314 | the lowest free slot from 3 on is filled, or the call fails and nothing changes |
| VfsKernel.Vfs.VfsOpen | kernel/vfs/vfs.c:326-364 | open as a step of the descriptor machine, every error case included |
| VfsKernel.Vfs.VfsClose | kernel/vfs/vfs.c:366-375 | close as a step of the descriptor machine |
| VfsKernel.Vfs.VfsDup | kernel/vfs/vfs.c:377-391 | dup as a step of the descriptor machine |
| VfsKernel.Vfs.VfsDup2 | kernel/vfs/vfs.c:393-411 | dup2 as a step of the descriptor machine |
| VfsKernel.Vfs.VfsPipe | kernel/vfs/vfs.c:413-462 | pipe as a step of the descriptor machine, with its rollback |
| VfsKernel.Vfs.VfsCloseAll | kernel/vfs/vfs.c:467-478 | the loop over the slots closes the whole table |
| VfsKernel.Vfs.VfsFdInherit | kernel/vfs/vfs.c:481-489 | the loop over the slots gives the child a counted copy of the table |
| VfsKernel.Vfs.CreateTask | kernel/sched/sched.c:263-283 | a new pid with the creator's open files |
| VfsKernel.Vfs.TaskExit | kernel/sched/sched.c:422-439 | an exiting task's table is closed and gone |
| VfsKernel.Vfs.DoStep | kernel/vfs/vfs.c:300-537 | every call made by any task is the machine's step for it |
| ShellOps.ElfExec | kernel/elf/tus_elf.c:103-178 | it succeeds exactly if the file is found, loads and a slot is free for it; the child has the table as it was, copied, and the image open; the shell closes the number that the shared global then holds, and its table ends as it was exactly if that is the number it opened; otherwise the image stays open in its slot and another slot is closed |
| ShellOps.QuietIsUndisturbed | kernel/elf/tus_elf.c:28-30 | a loader closes the number that it opened if no other task's loader assigns the global between its open and its close |
| ShellOps.UndisturbedIs | kernel/elf/tus_elf.c:28-30 | every loader of a task closed the number that it opened exactly if at each of its closes the last assignment of the global by anyone carries the number of the task's own last one |
| ShellOps.TwoLoaders | kernel/elf/tus_elf.c:269-279 | the shell opens its image, another task's execve opens its own, the shell closes the global's number: the shell's table is as before exactly if both got the same number |
| ShellOps.LeakFromBoot | kernel/elf/tus_elf.c:103-178 | from boot: while the shell starts a second program the first one, which inherited its own image in slot 3, calls execve, and the shell ends with slot 3 open |
| ShellOps.RunErrand | kernel/shell/commands.c:307-313 | a builtin that opens, reads, writes and closes leaves the shell's table as it was and passes no file on |
| Pipeline.WireStage | kernel/shell/commands.c:373-407 | the descriptors of one stage: input from the pipe before, output to a new pipe, redirections over both, and it succeeds exactly if there is memory for the pipe, the files can be opened and there are as many free slots as these need |
| Pipeline.Unwire | kernel/shell/commands.c:427-437 | after a stage each standard slot is its saved copy, if that is open, the stage's own descriptors are closed, and all other slots are as they were |
| Pipeline.RunStage | kernel/shell/commands.c:368-441 | one stage, which starts exactly if it can be wired and, unless it is a builtin, its program loads and one more slot is free: its wiring, its child's slots, and the shell's slots afterwards, which are as before apart from the read end for the next stage while every loader has closed its own image; then only the stage can hold the new pipe's write end, unless it is the builtin exec; and once a loader has closed another number, some slot is stuck with a new file for good |
| Pipeline.RunStages | kernel/shell/commands.c:363-444 | the loop over the stages, with its break on failure and the last read end closed: it starts the stages before the first one that cannot start, and no others; the table is back, or a slot is stuck, exactly as the loaders closed their own images or not |
| Pipeline.SaveStd | kernel/shell/commands.c:354-361 | the three saves succeed exactly if three slots are free; if not, the table is unchanged exactly if none is free |
| Pipeline.ExecPipeline | kernel/shell/commands.c:340-458 | for every pipeline of programs that are found, the shell's table ends as it began if and only if it did not have exactly one or two free slots and every loader of the shell closed the number it opened; with a program that is not found nothing happens; otherwise exactly the stages before the first one that lacks memory, a file, its program or a slot are started, and without such a stage all are; while the shell waits only stage j can hold the write end of pipe j, if no loader was disturbed and no stage is the builtin exec; every stage is wired to its neighbours, and the shell waits for the tasks of the started programs, in order, and for no others |
| Pipeline.Session | kernel/shell/commands.c:340-458 | over any number of command lines, up to the first one that an execve of another task disturbs, the standard slots never change, and a table with room for the saves is the same after each if and only if none was disturbed; each line starts exactly the stages before the first that cannot start with the slots free at the beginning |
| Pipeline.BootSession | kernel/shell/commands.c:340-458 | from boot on every command line ends with the table that the shell booted with, exactly until one is disturbed, and starts exactly the stages before the first that cannot start with ten free slots |
| Pipeline.SlotsSuffice | kernel/shell/commands.c:363-423 | a stage fills at most six slots, so with six free after the saves only memory, its files and its program decide whether it starts |
| Pipeline.ClosedInputIsFilled | kernel/shell/commands.c:354-361 | the standard slots have to be open: with slot 0 closed the second save fills it and the early return leaves it filled |
| Pipeline.HeldStaysWithin | kernel/vfs/vfs.c:464-489 | while the holders of a file do not spawn, nobody else comes to hold it |
| Pipeline.WritersGoneMeansEof | kernel/vfs/vfs.c:493-499 | when the only tasks that can hold a write end have exited, its count is zero and a reader gets bytes or end-of-file, never a wait |
| Pipeline.StageExitIsEof | kernel/shell/commands.c:446-453 | from the state in which the shell waits: once stage i has exited, the write count of pipe i is zero, and a reader of it gets all that is buffered and then end-of-file |
| Pipeline.StageReadsPipe | kernel/shell/commands.c:373-379 | a stage whose input is not redirected starts with the read end of the pipe before it in slot 0 |
| Pipeline.StageWritesPipe | kernel/shell/commands.c:380-393 | a stage whose output is not redirected starts with the write end of its pipe in slot 1, the last one with the shell's own, and with the shell's own slot 2 |
| Pipeline.NextStageSeesEof | kernel/shell/commands.c:373-453 | once the task of stage i is gone, stage i + 1 reads from its standard input all that is still buffered and then end-of-file |
| Pipeline.ExecBuiltinShares | kernel/shell/cmd_fs.c:508-524 | a stage that is the builtin exec has a child that holds the write end of the stage's pipe, and the pipeline does not count it: until that child runs, the end has a holder whatever the shell closes |
| CommandLine.ParsePipeline | kernel/shell/commands.c:234-290 | reads a token list as the stages between its bars, each with its words in order and the last redirection of each slot, and rejects exactly the lists with a missing file, an empty or overlong stage or too many stages |
| CommandLine.ParsePrinted | kernel/shell/commands.c:234-290 | a printed pipeline is read back as it was |
| CommandLine.RedirectLands | kernel/shell/commands.c:251-280 | an operator and its file redirect the slot that it names, in the stage they stand in, unless a later operator of that stage names the same slot |
| CommandLine.FiveOperators | kernel/shell/commands.c:253-268 | the five operators, the slot and the mode of each; no other text is one |
| CommandLine.AcceptedExactly | kernel/shell/commands.c:241-291 | a line is accepted exactly if every operator has its file, there are at most 8 stages, and each has between 1 and 16 words |
| CommandLine.NoFileRefused | kernel/shell/commands.c:270-272 | an operator at the end of a line is refused |
| Redirections.TokenReachesSlot | kernel/shell/commands.c:386-407 | from the tokens to the started stage: its slot has the file named after the operator; for > and 2> write-only, created if need be, with the truncate bit and at position 0; for >> and 2>> write-only, created if need be, without the truncate bit and at the end of the node; for < read-only, with neither bit |
| Pmm.FrameAllocator.constructor | kernel/mm/pmm.c:46-77 | a frame is free at boot exactly if the bitmap covers it and it lies wholly inside some usable entry of the memory map; the count; nothing handed out; the scans stay within the bitmap exactly if the count does |
| Pmm.UsableExactly | kernel/mm/pmm.c:59-73 | the frames that the loop over the map frees are those that lie wholly inside some usable entry, below the bitmap's end |
| Pmm.FrameAllocator.AllocFrame | kernel/mm/pmm.c:79-99 | the two scans around the hint on the bitmap are the set-level allocation |
| Pmm.FrameAllocator.AllocFrames | kernel/mm/pmm.c:101-123 | the first run of free frames is taken as a whole, or nothing is |
| Pmm.FrameAllocator.FreeFrame | kernel/mm/pmm.c:125-135 | out-of-range and free frames are ignored, any other becomes free |
| Pmm.AllocIsNearest | kernel/mm/pmm.c:79-99 | allocation fails exactly if no frame below the total is free, and otherwise takes the free frame nearest after the hint, going round |
| Pmm.PhysIs | kernel/mm/pmm.c:79-99 | the address of frame f is 4096 times f, and 0 stands for no frame |
| Pmm.AllocRunIsLowest | kernel/mm/pmm.c:101-123 | a run of frames is the lowest one that is all free, taken whole, and the call fails exactly if there is none |
| Pmm.DisjointTotal | kernel/mm/pmm.c:46-77 | for disjoint usable regions the frame total is the number of usable frames |
| Pmm.DisjointFits | kernel/mm/pmm.c:46-77 | for disjoint entries the frame count fits the bitmap |
| Pmm.FreeKeepsBooks | kernel/mm/pmm.c:125-135 | freeing keeps the accounts exactly if the frame was held, free or out of range |
| Pmm.RunKeepsBooks | kernel/mm/pmm.c:79-135 | over every run that frees only held frames, free and held frames are disjoint, usable, and the counter is the number held |
| Vmm.WalkExtends | kernel/mm/vmm.c:94-187 | a walk that meets no large page, creating tables or not, keeps the table forest and every translation, puts no large page on a path, and takes only free frames; it fails only if no frame is left |
| Vmm.MapInEffect | kernel/mm/vmm.c:221-255 | on a path without large pages a successful mapping changes the translation of its path to the frame, in its own space and in the spaces that share the table, and no other; a failing one changes none; large pages elsewhere keep translating |
| AccessRights.MapInRights | kernel/mm/vmm.c:172-183 | the entries on the way to a mapped page: the leaf as asked for; no upper entry forbids execution; each allows user code if that was asked for; new ones allow everything, and the others keep their write bit |
| AccessRights.MappedRights | kernel/mm/vmm.c:88-92 | after a mapping user code reaches the page exactly if the caller asked for it, the page can be run, and it can be written exactly if the caller asked for it and no entry that was there before forbids it |
| Vmm.UnmapInEffect | kernel/mm/vmm.c:281-291 | on a path without large pages unmapping clears that translation and no other, and takes no frame |
| Vmm.UserHalfPrivate | kernel/mm/vmm.c:198-211 | two spaces that share a user-half path are one space |
| VirtualAddresses.SameIxSamePage | kernel/mm/vmm.c:97-100 | two addresses have the same four table indices exactly if they are on the same 48-bit page |
| VirtualAddresses.MapPageInAddresses | kernel/mm/vmm.c:221-255 | if the walk meets no large page: after a successful call every address of the page translates to the frame, all other pages of all spaces, large ones included, as before, and for user pages every other space as before; after a failing call all as before |
| AddressSpaces.CloneEffect | kernel/mm/vmm.c:198-211 | a clone has an empty user half and the root's kernel half, and changes no existing space |
| AddressSpaces.StepCovered | kernel/mm/vmm.c:257-279 | a covered kernel entry stays covered through every map, unmap, clone and switch |
| AddressSpaces.MapPageAnswer | kernel/mm/vmm.c:257-279 | a page that vmm_map_page maps from address 0xffff800000000000 on is found in the root space, one below in the loaded space, and unmapping takes it away from there |
| AddressSpaces.KernelSeenAlike | kernel/mm/vmm.c:257-279 | once an entry of the kernel half is covered, after every run every space translates its addresses as the root does |
| AddressSpaces.RunClear | kernel/mm/vmm.c:83-86 | no run puts a large page on a walk: a path without one in every space, as all user-half paths are, is so in every space, old or new, after every run |
| LargePages.SplitLook | kernel/mm/vmm.c:126-164 | splitting a large page on the walk moves all its pages to the frames from the new table on, or to a fault if the new table is not aligned to the page's size, in every space that has it, and no other page |
| LargePages.SplitKeepsMapping | kernel/mm/vmm.c:82-86 | the split keeps the mapping, as its comment says, exactly if the new table happens to be the first frame of the large page, or the page was misaligned and faulted, and still does |
| LargePages.FinerIsSame | kernel/mm/vmm.c:126-164 | only the PS bit is wrong: with it cleared, every page of the large page would translate as before the split, with the same access bits |
| LargePages.SplitHidesMapping | kernel/mm/vmm.c:149-164 | whatever is then written into the new table, the page that was to be mapped translates into the large page, or faults if the new table is not aligned |
| AddressSpaces.ReserveCovers | kernel/mm/vmm.c:313-320 | reserving tables at boot covers the entry of every page of the region, or memory is exhausted |
| AddressSpaces.ReservedHeap | kernel/mm/vmm.c:313-320 | after a reservation at boot that did not run out of memory, and any later run, a page of the region can still be mapped without further memory, and every space translates it as the root does |
| VmmKernel.PageTableManager.TableFetch | kernel/mm/vmm.c:65-79 | the entry's table, a new zeroed one, or none |
| VmmKernel.PageTableManager.WalkPt | kernel/mm/vmm.c:94-187 | the walk over the in-place tables, on a path without large pages, is the walk of the model |
| VmmKernel.PageTableManager.SpaceClone | kernel/mm/vmm.c:198-211 | the copy loop makes the clone of the model |
| VmmKernel.PageTableManager.SpaceSwitch | kernel/mm/vmm.c:213-219 | only the loaded space changes |
| VmmKernel.PageTableManager.MapPageIn | kernel/mm/vmm.c:221-255 | misaligned arguments fail without effect; otherwise the mapping step of the model with its result |
| VmmKernel.PageTableManager.MapPage | kernel/mm/vmm.c:257-260 | addresses from 0xffff800000000000 on go to the root space, others to the loaded one |
| VmmKernel.PageTableManager.UnmapPageIn | kernel/mm/vmm.c:281-291 | the unmapping step of the model |
| VmmKernel.PageTableManager.UnmapPage | kernel/mm/vmm.c:271-279 | the unmapping step in the space that the address belongs to |
| VmmKernel.PageTableManager.TranslateAddress | kernel/mm/vmm.c:293-299 | the physical address that the tables give, 0 if none |
| VmmKernel.PageTableManager.ReserveTables | kernel/mm/vmm.c:313-320 | the loop over the region's pages is the reservation of the model |
| Mmap.WrapsAreCaught | kernel/syscall/syscall.c:202-204 | the two 64-bit comparisons reject exactly the ranges that end above the user half |
| Mmap.PagesLeast | kernel/syscall/syscall.c:201 | a length is rounded up to the fewest pages that hold it |
| Mmap.AnonymousIs | kernel/syscall/syscall.c:189 | the flag for an anonymous mapping is bit 5 |
| Mmap.MapOneEffect | kernel/syscall/syscall.c:206-220 | one page: a fresh frame mapped, or nothing but new tables; no user page of any space shares a frame with another |
| Mmap.PageIsOpen | kernel/syscall/syscall.c:213-217 | a page that mmap or the loader has mapped can be reached and run by user code, and written unless an entry that was there before forbids it |
| Mmap.UnmapOneEffect | kernel/syscall/syscall.c:237-245 | one page: its translation is gone and its frame free again, and the privacy of all other pages is kept |
| Mmap.Process.SysMunmap | kernel/syscall/syscall.c:228-247 | rejected arguments change nothing; otherwise exactly the pages of the range are unmapped and exactly their frames come back |
| Mmap.Process.RollBack | kernel/syscall/syscall.c:206-221 | after a failure at any page the pages mapped so far are unmapped and their frames free, the empty case included |
| Mmap.Process.SysMmap | kernel/syscall/syscall.c:183-224 | either every page of the range maps to its own fresh zeroed frame and nothing else changes, or -ENOMEM with every frame back but new tables, and then no more frames are left than the range has pages |
| Mmap.Process.MapThenUnmap | kernel/syscall/syscall.c:183-247 | munmap undoes mmap on an unmapped range: every translation and every frame but those of new tables as before |
| HeapMemory.StoreEffect | kernel/mm/kmalloc.c:66-70 | a word store changes that word and no other |
| HeapArena.TilesCover | kernel/mm/kmalloc.c:60-136 | every address of the arena lies in exactly one block |
| HeapArena.FitIsFirst | kernel/mm/kmalloc.c:109-127 | the block taken is the first of the list that is large enough |
| HeapArena.TakeFreeOk | kernel/mm/kmalloc.c:112-125 | taking a block, whole or split, keeps the tiling and the list of all free blocks without repetition |
| HeapArena.TakeFreeIs | kernel/mm/kmalloc.c:112-125 | what is left of a taken block becomes a free block in its place on the list exactly if it has room for a header and 16 bytes |
| HeapArena.GrownOk | kernel/mm/kmalloc.c:60-74 | growing by a page keeps both |
| HeapArena.FreedOk | kernel/mm/kmalloc.c:161-174 | sorted insertion into the unsorted list and the merge with the next block keep both |
| HeapArena.FreedIs | kernel/mm/kmalloc.c:161-174 | a freed block goes in front of the first listed one above it and takes that one in exactly if the two are adjacent |
| HeapArena.LargeSpares | kernel/mm/kmalloc.c:148-158 | the pages that kfree of a large block releases hold no byte of another block |
| HeapArena.RunTiles | kernel/mm/kmalloc.c:60-186 | over every run free, live small, live large, released and lost blocks tile the arena, and a live block that is not released stays where and what it is |
| HeapBlocks.HeaderMissesPayload | kernel/mm/kmalloc.c:25-33 | no header write of the allocator reaches a payload or a pages word |
| HeapEffects.SplitEffect | kernel/mm/kmalloc.c:114-120 | the header writes of a split leave memory that represents the split arena, and the data of every live block as it was |
| HeapEffects.MergeEffect | kernel/mm/kmalloc.c:169-174 | the merge's writes leave memory that represents the merged arena |
| HeapEffects.ReleaseEffect | kernel/mm/kmalloc.c:148-158 | releasing pages that hold no byte of another block in use leaves memory that represents the arena with the block gone, or lost if only some of its pages went, and the data of every other live block as it was |
| HeapEffects.TouchedBreaks | kernel/mm/kmalloc.c:148-158 | releasing a page with a byte of another block in use leaves memory in which no arena whatever has the other live blocks with what they held and the free list |
| Kmalloc.RequestFits | kernel/mm/kmalloc.c:83-93 | a request gets the room it asked for exactly if it is at most 2^64 - 4128; above that the page count wraps around |
| Kmalloc.RoundedLeast | kernel/mm/kmalloc.c:83-93 | a request is rounded to the least multiple of 16, and a large one to the fewest pages |
| Kmalloc.GrownFits | kernel/mm/kmalloc.c:129-135 | after growth the first fit is the fresh page, so the retry succeeds |
| Kmalloc.KernelHeap.HeapGrowPage | kernel/mm/kmalloc.c:60-74 | a fresh page becomes a free block in front of the list, its pages word as the frame held it, or nothing changes when no frame is left |
| Kmalloc.KernelHeap.HeapGrow | kernel/mm/kmalloc.c:76-81 | one page for a payload of at most a page |
| Kmalloc.KernelHeap.FirstFit | kernel/mm/kmalloc.c:109-127 | the walk along the linked list takes the first fitting block, and leaves its pages word as it was |
| Kmalloc.KernelHeap.AllocLarge | kernel/mm/kmalloc.c:88-107 | whole pages at the end of the arena with their page count in the header, exactly if there are as many frames as pages; otherwise failure with the arena unchanged and every frame taken |
| Kmalloc.KernelHeap.Kmalloc | kernel/mm/kmalloc.c:83-136 | a new block with the room asked for and every other block's data untouched, or 0 with frames exhausted, exactly if there is no place for it; which block, in all cases; and in a small block's pages word what the memory held there before |
| Kmalloc.KernelHeap.ReleasePages | kernel/mm/kmalloc.c:148-158 | the release loop unmaps exactly those pages and frees exactly their frames |
| Kmalloc.KernelHeap.FreeSmall | kernel/mm/kmalloc.c:161-186 | the linked list after sorted insertion and merge is the model's, and no word but those of the headers is written; the test for a merge with the predecessor is never true |
| Kmalloc.KernelHeap.Kfree | kernel/mm/kmalloc.c:138-186 | the block is gone, all other data untouched, and the frames of as many pages as its pages word says are free; the heap is sound afterwards if and only if that word is 0 or no other block in use has a byte in those pages, and otherwise no arena has the other blocks any more |
| Kmalloc.KernelHeap.Krealloc | kernel/mm/kmalloc.c:188-204 | the block that comes back begins with all that the old one held and is large enough, and no other block changes; it is the old block exactly if the rounded size fits, and none exactly if kmalloc has no place for a larger one; the heap is sound afterwards if and only if the block did not move or kfree of the old one, with the new one already there, touches no other block, and otherwise no arena has those blocks |
| Kmalloc.FirstBlock | kernel/mm/kmalloc.c:60-74 | from boot: kmalloc of 16 bytes and kfree of the block leave a valid heap exactly if the second word of the first frame happened to be 0 |
| HeapRuns.WholePage | kernel/mm/kmalloc.c:109-127 | from boot: a block that fills its page can be freed whatever its pages word is, and the heap is sound and empty |
| HeapRuns.OwnerWrites | kernel/mm/kmalloc.c:109-186 | from boot with frames of zeros: a block of 64 bytes whose owner writes its fourth word, kfree, and two blocks of 16 bytes: that word is the second one's pages word, and kfree of it breaks the heap for the first one |
| Grep.AcceptsCons | userspace/grep.c:450-521 | a branch accepts a subject exactly if some number of characters goes to its first item and the rest of the branch accepts what is left |
| Grep.SureExactly | userspace/grep.c:334-336 | what the matcher accepts is the branch's language, on every subject, exactly if there is no minimum of 0, or what comes before the first one matches nothing, or all items from it on have minimum 0 and, under a final dollar sign, some item there or just before takes any text; for every branch without a dollar sign, and under one unless an earlier item with a positive minimum takes any text |
| Grep.SureMatches | userspace/grep.c:358-522 | if every branch is of that kind, what the matcher computes is that some branch's language has a prefix of the subject, the whole subject under a final dollar sign |
| Grep.MatchesItem | userspace/grep.c:450-521 | an item matches by some allowed number of repetitions; one with minimum 0 matches every subject |
| Grep.MseqCont | userspace/grep.c:348-355 | returns 0 and sets its flag exactly if the rest matches |
| Grep.QCont | userspace/grep.c:244-271 | returns 0 and sets its flag exactly if the remaining repetitions and the rest match |
| Grep.AtomEach | userspace/grep.c:311-319 | for an atom of one character: true exactly if it, the remaining repetitions and the rest match |
| Grep.RepsMatch | userspace/grep.c:322-339 | for a positive count, whether that many repetitions and the rest match; at count 0 the opposite of whether the rest matches |
| Grep.AnyOf | userspace/grep.c:399-447 | the loop over the branches, in order, with its buffer limit |
| Grep.Repeat | userspace/grep.c:503-521 | the loop over repetition counts from the largest down |
| Grep.MSeq | userspace/grep.c:358-522 | terminates and returns true exactly if the subject matches a branch, each read up to its first item with minimum 0 |
| Grep.ReSearch | userspace/grep.c:525-588 | the match of the pattern without its anchors at some position; a final dollar sign has no effect |
| Grep.DollarIgnored | userspace/grep.c:545-584 | a final dollar sign never changes what is found |
| Grep.DollarExactly | userspace/grep.c:545-584 | for a pattern of single characters the answer to a final dollar sign is right on every line exactly if every atom matches every character or some atom matches none |
| Grep.DollarExample | userspace/grep.c:545-584 | a$ is found in the line ab |
| GrepPatterns.ParsePrinted | userspace/grep.c:61-199 | the scanners read a printed branch as the atoms, ranges and repetition bounds it was printed from |
| GrepPatterns.ClassAtom | userspace/grep.c:137-190 | a bracket expression with a class name matches exactly the characters of that class, or the others if it is negated |
| GrepPatterns.ClassesAre | userspace/grep.c:160-172 | which characters the class names stand for |
| GrepPatterns.UnknownNames | userspace/grep.c:166-171 | alnum, cntrl and blank stand for no character at all |
| GrepPatterns.EmptyName | userspace/grep.c:132-192 | [[::]] is no class: the set has the bracket signs and the colon as members |
| GrepPatterns.BackslashInSet | userspace/grep.c:85-106 | a backslash in a set keeps the next character from closing it, and both are members; a set that nothing closes is no item |
| GrepPatterns.EitherCase | userspace/grep.c:53-55 | without regard to case a letter stands for both of its forms and any other character for itself |
| GrepPatterns.PrintedMatches | userspace/grep.c:358-522 | on a printed pattern whose minimums of 0 come last in their alternatives, with a .* among them before an anchor, the matcher decides the language of the syntax tree |
| GrepPatterns.MatchPattern | userspace/grep.c:358-522 | running the matcher on the printed text tells whether a prefix of the subject is in the tree's language |
| GrepPatterns.ZeroMinimum | userspace/grep.c:334-336 | a?b is found in the subject c |
| GrepPatterns.ZeroBeforeAnchor | userspace/grep.c:334-336 | a*$ matches the subject c |
| StackImage.ReadsImage | sources/musl-1.2.6/ldso/dlstart.c:26-34 | an image with these words and strings reads back as exactly its arguments, no environment, and AT_PAGESZ = 4096 |
| StackImage.PutStrings | kernel/sched/sched.c:239-247 | the strings lie one below the other from the top of the page, each at the address kept for it |
| StackImage.PutWords | kernel/sched/sched.c:249-259 | the word array, entry by entry, and no byte outside it |
| StackImage.BuildStack | kernel/sched/sched.c:205-261 | fails exactly if the strings, pointers and words do not fit the page; otherwise the C runtime reads from the stack pointer the program name, then the arguments in order, at most 16 in all, a NULL as an empty string, then an empty environment and the page size, and nothing below the stack pointer is written |
| StackImage.NeedIs | kernel/sched/sched.c:231-237 | the size that is checked: 56 bytes, and for each argument 8 for its pointer, its bytes and their NUL |
| StackImage.LittleEndian | kernel/sched/sched.c:249-259 | words are read lowest byte first |
| StackImage.CollectArgs | kernel/elf/tus_elf.c:222-226 | the name and the arguments, at most 16, with empty strings for NULL |
| StackImage.SizeNeeded | kernel/elf/tus_elf.c:227-230 | the sum that the size check compares |
| StackImage.Alignment | kernel/elf/tus_elf.c:245-246 | the initial stack pointer is 16-byte aligned exactly if the words above it are even in number |
| ElfLoad.DisjointInPlace | kernel/elf/elfload.c:137-177 | byte-disjoint segments are all in place after the load: file bytes, then zeros, whether or not they share pages |
| ElfLoad.PokeEffect | kernel/elf/tus_elf.c:56-62 | a store at a user address, through the page tables, changes that byte and no other of any address space |
| ElfLoad.Loader.AllocPage | kernel/elf/tus_elf.c:54-67 | one page: after success it is mapped, with the frame it had if it had one; no byte that any space could read changes, and no other page becomes mapped |
| ElfLoad.Loader.TusAlloc | kernel/elf/tus_elf.c:42-69 | every page the segment touches is mapped; what was mapped in any space keeps its bytes; no other page is mapped |
| ElfLoad.Loader.FindLoad | kernel/elf/elfload.c:25-39 | the next loadable header, the end of the table, or an unreadable header |
| ElfLoad.Loader.LoadSegment | kernel/elf/elfload.c:155-173 | one segment in place, nothing else that was mapped in any space changed |
| ElfLoad.Loader.ElLoad | kernel/elf/elfload.c:137-177 | after success every address holds, through the page tables, the byte of the last segment that covers it, all else that was mapped is as before, and no other space has changed; an I/O error means a header or segment outside the file, and out of memory that no frame is left or that a segment starts at address 0, which never loads |
| ElfTable.TableRead | kernel/elf/elfload.c:23-39 | from a program header table laid out as the System V gABI says, at e_phoff with e_phentsize bytes from one entry to the next, the loader finds exactly the PT_LOAD entries with the offset, address and sizes that were written |
| ElfTable.LoadProgram | kernel/elf/elfload.c:137-176 | after a successful load of a file with such a table every byte of every PT_LOAD entry is at its virtual address, from its file offset on and then zeros, if no two entries claim an address; a read error is reported only where the file is too short, and out of memory only when no frame is left or an entry starts at address 0; neither such file loads |
| Scheduler.StepInv | kernel/sched/sched.c:380-460 | until the halt exactly one task is running, it is the current one, and its address space is loaded; after the halt nothing is runnable |
| Scheduler.Exec | kernel/sched/sched.c:380-460 | the same after every run of ticks, creations and exits |
| Scheduler.NextIsNearest | kernel/sched/sched.c:92-100 | the task chosen is no farther away than any runnable one |
| Scheduler.RunsAgain | kernel/sched/sched.c:380-460 | under any mix of ticks, creations and exits a ready task runs again once there have been as many ticks outside critical sections or exits as it is slots away, at most 15, with the frame, FPU state and address space it was left with |
| Scheduler.TickAnswer | kernel/sched/sched.c:380-419 | a tick switches exactly if it is outside a critical section and another task is runnable, and then to the next runnable slot going round, whose address space and FPU state are loaded; the old task is left ready with the interrupted frame and FPU state; otherwise nothing but the saved frame changes |
| Scheduler.ExitAnswer | kernel/sched/sched.c:422-460 | an exit leaves a zombie and goes to the next runnable slot, and halts exactly if there is none |
| Scheduler.CreateAnswer | kernel/sched/sched.c:72-89 | a new task takes the first zombie's slot, or the first unused one if there is no zombie, with the counter's pid; without memory only a zombie's slot is wiped |
| Scheduler.ExitKills | kernel/sched/sched.c:422-430 | the pid of an exiting task is not alive |
| Scheduler.DeadForGood | kernel/sched/sched.c:116-123 | over every run, whatever its length, a pid that is not alive stays so exactly while the run creates no more tasks than the 32-bit counter needs to come round to it |
| Scheduler.PidsStayOk | kernel/sched/sched.c:263 | until the counter wraps around, tasks have distinct pids below it |
| Scheduler.FromBoot | kernel/sched/sched.c:139-158 | after every history from boot one task runs in its own address space, pids are distinct, and a pid that has died is never alive again, exactly until the counter comes round to it |
| Scheduler.ZeroIsAlive | kernel/sched/sched.c:116-123 | pid 0 counts as alive exactly while some slot is unused |
| SchedulerKernel.TaskTable.constructor | kernel/sched/sched.c:139-158 | the boot state with one running task |
| SchedulerKernel.TaskTable.TaskFindSlot | kernel/sched/sched.c:72-89 | the first zombie's slot, wiped, before the first unused one |
| SchedulerKernel.TaskTable.TaskNext | kernel/sched/sched.c:92-100 | the cyclic scan for the next runnable task |
| SchedulerKernel.TaskTable.SchedTaskAlive | kernel/sched/sched.c:116-123 | whether some slot with that pid is no zombie |
| SchedulerKernel.TaskTable.SchedTick | kernel/sched/sched.c:380-419 | a tick as a step of the scheduler, with the frame to resume |
| SchedulerKernel.TaskTable.TaskCreate | kernel/sched/sched.c:160-283 | creation as a step of the scheduler; the pid, or -1 exactly without memory or with neither a zombie nor an unused slot |
| SchedulerKernel.TaskTable.TaskExit | kernel/sched/sched.c:422-460 | exit as a step of the scheduler, with the halt when no other task is left |
| VfsTree.KeyIsComps | kernel/vfs/vfs.c:67-109 | the component list that creation goes by is the one that lookup goes by, exactly unless the path is empty; then creation makes an entry with an empty name, which lookup takes for the root |
| VfsTree.KeyLimits | kernel/vfs/vfs.c:67-110 | a path can be created or removed exactly if its last name has between 1 and 63 characters and at most 255 come before its last slash |
| VfsTree.AttachOk | kernel/vfs/vfs.c:122-127 | attaching a node keeps the tree and adds exactly one path to the map |
| VfsTree.DetachOk | kernel/vfs/vfs.c:251-266 | unlinking a childless node keeps the tree and takes exactly its path out of the map |
| VfsTreeKernel.Tree.DirFind | kernel/vfs/vfs.c:112-119 | the child with that name, if the map has the longer path |
| VfsTreeKernel.Tree.Lookup | kernel/vfs/vfs.c:129-167 | the node at the path's component list, exactly if there is one |
| VfsTreeKernel.Tree.PathSplit | kernel/vfs/vfs.c:67-109 | the directory part and the final name, with both buffer limits |
| VfsTreeKernel.Tree.Create | kernel/vfs/vfs.c:171-238 | succeeds exactly if the parent is a directory and the name is free (and memory is there), and then adds exactly that entry |
| VfsTreeKernel.Tree.Remove | kernel/vfs/vfs.c:240-268 | succeeds exactly for an entry that is not a directory with entries, and then takes exactly that entry away |
| Ustar.OctalRoundTrip | kernel/vfs/rootfs.c:38-51 | a number in octal digits between blanks is read back |
| Ustar.HeaderPathIs | kernel/vfs/rootfs.c:57-74 | the path read from a header is the member's name without a leading ./ and trailing slashes |
| Ustar.InfoIs | kernel/vfs/rootfs.c:104-129 | a member becomes a directory without contents or a file with the archive's, with the archive's mode, or octal 755 and 644 if that is 0 |
| Ustar.PackIsArchive | kernel/vfs/rootfs.c:76-143 | a packed image has the layout that the mount loop reads |
| Ustar.MountsExactly | kernel/vfs/rootfs.c:76-143 | mounting a parent-first list of distinct members on an empty root succeeds and gives exactly their paths, types, modes and contents |
| Rootfs.ReadOctal | kernel/vfs/rootfs.c:38-51 | the loop computes the number that the field holds |
| Rootfs.Normalise | kernel/vfs/rootfs.c:57-74 | the loops compute the path in the header |
| Rootfs.Extract | kernel/vfs/rootfs.c:104-132 | one member with what the heap answers: created with its mode and contents; a directory passed over or a file refused; or an empty file left behind |
| Rootfs.Mount | kernel/vfs/rootfs.c:76-143 | for every image, whatever its bytes and whatever lies behind it in memory, and every sequence of heap answers, the tree and the result that its headers give one after the other, down to what is left behind by a failure or a truncated image |
| Rootfs.ArchiveBytes | kernel/vfs/rootfs.c:76-143 | on an archive that is the mounting of its members one by one, in order, with what the heap answers |
| Rootfs.EnoughRoom | kernel/vfs/rootfs.c:76-143 | with enough memory mounting the members with the heap's answers is mounting them as such |
| Rootfs.FilesAreThere | kernel/vfs/rootfs.c:104-132 | a mount that reports success has every file of the archive in place, whatever the heap answered; only directories can be missing |
| Rootfs.MountedExactly | kernel/vfs/rootfs.c:76-143 | mounting a parent-first list on an empty root with any answers of the heap reports success exactly if every file got memory for its node, for those above it and for its contents, and then a member is missing exactly if its node or one above it got no memory |
| Rootfs.DirectoryMissing | kernel/vfs/rootfs.c:104-110 | an archive of one directory whose node gets no memory: the mount reports success and the directory is missing |
| Rootfs.MountPacked | kernel/vfs/rootfs.c:76-143 | pack, mount and look up: success is reported exactly if every file got its memory, and then a member's path leads to its type, mode and contents exactly if its node and those above it got memory; with enough memory that is every member |
| PathNames.CompsOfRender | kernel/shell/cmd_fs.c:97-112 | the text of a list of names splits into that list |
| PathResolve.ResolvedIsFold | kernel/shell/cmd_fs.c:44-113 | within its limits the result is the absolute path of the fold of . and .. over the working directory's components and the input's, and is normalised |
| PathResolve.OneStep | kernel/shell/cmd_fs.c:44-113 | from a directory a name leads into it, . stays, .. goes up by one component and stays at the root, and an absolute path starts over |
| PathResolve.LongInput | kernel/shell/cmd_fs.c:47-60 | of an absolute path the first 287 characters count, and a relative one that is too long together with the working directory gives the root |
| PathResolve.FirstNamesKept | kernel/shell/cmd_fs.c:62-95 | of more than 32 names the first 32 are kept |
| PathResolve.Idempotent | kernel/shell/cmd_fs.c:44-113 | for every input and depth, resolving a result again, from anywhere, gives the same exactly if the buffer's end did not cut it behind a slash or so that . or .. is left of its last name |
| PathResolve.FittingIsFixed | kernel/shell/cmd_fs.c:44-113 | a result that fits its buffer, the fallback / included, resolves to itself from anywhere |
| PathResolve.CutExample | kernel/shell/cmd_fs.c:97-112 | an absolute path of 253 letters, a slash and a further name, in the shell's 256 bytes, resolves to the letters with the slash behind them, and that to the letters alone |
| PathResolve.Composes | kernel/shell/cmd_fs.c:44-113 | resolving a/b is resolving b from where a resolves to |
| PathResolve.Split | kernel/shell/cmd_fs.c:62-95 | the split loop's segment array is the fold with room for 32 components |
| PathResolve.Rebuild | kernel/shell/cmd_fs.c:97-112 | the rebuilt path, cut at the end of the buffer, and its NUL |
| PathResolve.Resolve | kernel/shell/cmd_fs.c:44-113 | the buffer's contents for all inputs, the limits included |

## Left out

- The context switch itself, FPU save areas, TLB flushes, MSRs, port I/O and interrupt entry are hardware; a switch is an abstract step.
- Preemption inside a single copy or counter update of a pipe is below the granularity of the steps.
- VmmKernel.PageTableManager.WalkPt: is given paths without large pages; the split of one is modelled on values in LargePages.
- What elf_exec loads when another task's execve has put its own number into the global: the loader then reads through that slot.
- Pipeline.Session: says nothing about the command lines after one that was disturbed, since the standard slots may then be closed.
- Freeing a node that is still open in vfs_remove, and reads and writes of regular files and devices.
- A writer stage inherits the read end of its own pipe, so nothing is claimed about -EPIPE when the next stage exits.
- The tokenizer, which overwrites the character after an operator: reading starts from a token list. How a name becomes a builtin or a program file.
- grep's groups, its BRE mode, sed, and the options around the search. Repetition counts are unbounded numbers here, an int in the code.
- The heap's pages are a map from page numbers to frames and words instead of the page tables, and heap addresses do not wrap around at 2^64.
- Children of a directory are a sequence instead of sibling links; the parent pointer is left out.
- ELF header validation and the dynamic section.
- ElfLoad.Loader.ElLoad: is given segments with p_filesz at most p_memsz, as the System V gABI asks, that lie in the user half.
- Files of the archive that the kernel skips (links, devices) and archive names longer than the name field.
- System calls before the scheduler has a current task.
- Drivers, the console, login tools and the other user programs.
- Pipeline.WaitFor: the wait loop is taken as over once the task has exited, whatever runs meanwhile.
- Kmalloc.KernelHeap.ReleasePages: only the heap's own pages are there to be released; a pages word so large that the loop leaves the heap's range also takes away what else is mapped there.
- AddressSpaces.ReservedHeap: covers the VMM_KHEAP_SIZE bytes that are reserved at boot, not a heap that grows beyond them.
- Kmalloc.KernelHeap.Kmalloc: requests above 2^64 - 4128 bytes are excluded, where the size arithmetic wraps; Kmalloc.RequestFits states exactly where.
- Grep.SureExactly: under a final dollar sign, branches with an item such as .+ before the last item ahead of the first minimum of 0 have only the direction of Grep.SureMatches; which of them are read right depends on how their classes overlap.
- Grep.DollarExactly: is stated for items of one character each; for repeated items Grep.DollarIgnored says what the search computes.
- StackImage.BuildStack: mapping the stack's pages before the image is built is left out.
