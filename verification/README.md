# Memory of a small RISC-V kernel

This project models how the kernel under `kernel/` manages memory, from the page-frame allocator up to the
private memory of processes, together with its timer queue, run queue and the parsers of its boot data.
Physical memory is a set of page frames; an address is a number, and a frame is named by its index from the
first managed one.

- **Page frames** (`ListH`, `BuddySpec`, `BuddyTheory`, `Buddy`, `BuddyPages`, `BuddyRuns`). One object holds
  `frame_array`, `ref_count` and the circular lists embedded in the free pages. `BuddySpec.WF` says that free and
  allocated blocks are aligned, in range and tile memory, and that no two free buddies remain; from it
  follows that the blocks are a function of the set of free frames, that allocation fails only when no
  aligned run exists, and that every run which returns its blocks ends in the state of boot.
- **Page tables** (`Sv39`, `PageTree`, `Hardware`, `Vm`). The three-level tables, in frames of that memory, refine a finite map
  from user pages to leaf entries. Section 4.4 of the RISC-V Privileged Architecture gives the layout, section
  4.3.2 the walk, which `Hardware` spells out; an entry is a record of its fields.
- **Copy-on-write** (`Cow`). The count of a user frame is the number of entries that point to it, and a writable entry
  has its frame to itself. Every step of fork, fault and teardown keeps both.
- **Chunk pools** (`KmallocSpec`, `Kmalloc`). kmalloc over the same page frames. What it has handed out, chunks and
  large blocks, is known at every moment of a run: none overlaps another, and each can be given back at any later time.
- **Processes** (`AddressSpace`, `Mmap`, `Machine`, `Fork`, `Accounting`, `Steps`, `Supply`, `Tasks`, `Borders`,
  `Process`, `Programs`, `Lifetime`, `Isolation`). `Isolation` says what processes are promised: each has private bytes that
  only its own actions change, and fork copies them eagerly. `Kernel.Valid` states that what every process sees
  through its areas, tables and frames equals the replay of the history of actions in that specification, and that
  every frame is free, in use by a task, or with kmalloc, whose chunks and blocks belong to tasks (structures,
  stacks, areas) or to the rest of the kernel (timer events, deferred work). It holds from the first threads on, and
  execute, fork, exec, mmap, fault, load, store, stop, exit and reap keep it, as do kmalloc and kfree of others; the
  one exception is a populating mmap that fails half-way. `Borders` says of each action whom it can touch,
  `Lifetime` what follows for whole runs, `Programs` what a program finds when it has been loaded.
- **Boot** (`Boot`, `Setup`, `Bringup`, `Sample`). From the device tree to the regions, from the regions to the free
  frames, and on to the first threads; `Sample` is one machine with its tree, followed all the way.
- **Run queue** (`RunQueue`), **timers** (`Timer`), **archive** (`RawMemory`, `Cpio`) and **device tree** (`Dtb`). Each is an
  imperative model of its source file and lemmas that connect it to an independent description: a ring, the unique
  stable order, an encoder, a tree.

State-changing code is written as methods of classes; `ghost` state records what the contracts speak about
(which frame serves which tree, what has been handed out, what has happened so far). A step in the middle of an
operation may leave a range of `frame_array` meaningless; the predicates carry that range as a hole.

What the operations need and do not check themselves is a precondition: a pointer that is freed is handed out, a fault
is genuine, a new area ends at or below 2^38, and what the code takes without asking is there, that is, the structure,
root and stack of a new task, a new root in exec, and the tables that `pagewalk` adds. What these cost is stated exactly,
so nothing more is asked for. Where the code does check for a null page or chunk, the model has both outcomes.

A result of the code that its design does not intend is stated as it is. The regions of the device tree are registered as
physical numbers, while frames are compared with them at the addresses of the kernel; `Setup.MeantFrames` says when such
a region keeps back the frame it means. The table of regions is filled without a look at its end; `Boot.ArraysKeptBack`
says when the allocator's own arrays are still kept back. A populating `do_mmap` that runs out of memory leaves pages mapped
outside every area; `Process.Kernel.Mmap` says exactly when.

Where code and comments differ the model follows the code: `cpio_find` is described as searching the archive it is given
with the traversal of `cpio_cat`, but searches the one at `cpio_addr`, and accepts four digits of the magic number where
`cpio_cat` wants five.

## Model

| member | source | states |
|---|---|---|
| Process.Kernel.UserStore | kernel/src/trap.c:132-254 | a store takes effect exactly as it would in a private copy of memory (`Valid` ties what every process sees to the replay of the history, to which the store is added), and the byte is where the hardware walk leads; or the process is killed and memory is as before; it succeeds exactly when its area permits writing and a frame is free or the page has its frame to itself |
| Process.Kernel.UserLoad | kernel/src/trap.c:132-254 | a load or fetch that completes returns the byte the private copy holds at that address, from the frame the hardware walk leads to; a fetch completes exactly in an area with execute permission whose page is present or gets a frame, a load exactly on a present page of a readable or writable area or on an absent one of a readable area when a frame is free |
| Process.Kernel.TryStore | kernel/src/trap.c:132-254 | the access and the store: the step of the specification, or a dead process and nothing else changed |
| Process.Kernel.TryAccess | kernel/src/trap.c:132-254 | an access, with the fault handled on the way if need be: it resumes exactly when the entry allows it or the handler can see to it |
| Process.Kernel.PageFault | kernel/src/trap.c:132-254 | no process can see that a fault was handled; after a return the entry is present and allows that very access, and a present entry has only gained write permission and perhaps a frame of its own; killed exactly when the area lacks execute permission for a fetch, read for a load, write for a store, or memory is out, and then nothing is mapped or unmapped; halted only for a fault of the kernel |
| Process.Kernel.Resolve | kernel/src/trap.c:148-245 | the same once the area is found: both blocks of the handler, and which of them cannot help |
| Process.Kernel.Fork | kernel/src/thread.c:383-465 | the child sees what the parent sees and nobody else sees a difference; both share every page read-only; -1 exactly when the frames left after the child is created are fewer than the tables to copy, and then the child has the pages before the first table for which there is no frame, which is one page number that follows from the tables and the frames left (`Fork.OneStop`); areas for which kmalloc has no room are missing at the end of its list; such a child sees the bytes of its parent in the areas and pages it has got, and beyond them the file or zero |
| Process.Kernel.Exec | kernel/src/thread.c:236-299 | the process sees the image of its program and nothing of its old memory: its file from address 0 in pages it may read and execute, 16 KiB of zeros below 2^38 that it may read and write, and nothing elsewhere; its old pages lose one reference each, its old tree is free, its old areas are back with kmalloc; at most one frame less is free |
| Process.Kernel.Execute | kernel/src/thread.c:320-381 | a new process sees the image of its program with the same permissions, without the stack or without both areas if kmalloc has no room; nobody else sees a difference; the exact number of frames left |
| Programs.AfterExec | kernel/src/thread.c:236-299 | exec and then any user access at any address: it goes through exactly in the stack unless it is a fetch, and in the pages of the file unless it is a store, and reads the byte of the file there or zero; otherwise the process is killed |
| Programs.AfterExecute | kernel/src/thread.c:320-381 | the same for a new program, its first instruction included |
| Programs.Push | kernel/src/thread.c:288-299 | after exec a byte stored anywhere in the stack is read back |
| Programs.StoreAndLoad | kernel/src/trap.c:132-254 | in any state a store that goes through is followed by a load that goes through and returns its byte |
| Process.Kernel.Mmap | kernel/src/syscall.c:8-74 | the new area starts at the least page boundary from the hint on where it fits, shows zeros to its process and changes nothing else that anyone sees; a successful call with both flags has made present every page with a requested byte, with the permissions asked for (write implies read), and no other; without both flags no page is mapped; how far populating gets is a function of the frames there were; `Valid` holds afterwards exactly when there was nothing to populate, no free frame at all, more than pages and tables cost, or just these and a node for the area; in any case nothing is lost and no view has changed |
| Tasks.NoAreas | kernel/src/trap.c:137-150 | an access of a task without areas, such as idle and shell, finds nothing mapped and nothing that could be |
| Tasks.MmapCanStopHalfway | kernel/src/syscall.c:49-59 | three free frames and two pages to populate: one page is mapped and the call returns -1 |
| Process.Kernel.Reap | kernel/src/thread.c:132-161 | exactly the pages and tables of the zombie are given up, and its areas, stack and structure go back to kmalloc; what the others see stays |
| Process.Kernel.KillZombies | kernel/src/thread.c:119-162 | the first zombie without a parent behind the head of the queue is reaped; or every zombie has a parent and nothing changes |
| Process.Kernel.WaitPid | kernel/src/thread.c:500-550 | -1 exactly for an unknown task; a zombie is reaped; otherwise nothing changes |
| Process.Kernel.ThreadExit | kernel/src/thread.c:95-117 | the task becomes a zombie; exactly the tasks whose parent it was have none now, and no other record differs; the next running task behind it is chosen; nothing that anyone sees changes |
| Tasks.WithoutChildren | kernel/src/thread.c:104-112 | once around the queue the parent of every child of the task is 0; every other parent and everything else in the records is as before |
| Process.Kernel.Stop | kernel/src/thread.c:552-577 | -1 exactly for an unknown task; otherwise it becomes a zombie and its children keep it as parent; if it is the caller, another is chosen |
| Process.Kernel.Schedule | kernel/src/thread.c:73-88 | the next running task behind the current one, with its root for satp; the current one stays exactly when no other runs |
| Lifetime.ForkAndReap | kernel/src/thread.c:383-550 | fork, exit and reap of the child, whether the fork succeeded or not: same tables and user frames, same counts, same views, same chunks and blocks handed out; the free frames differ by the pages that pools have taken, and without these the free blocks are the same, too; only the parent has lost write permissions |
| Lifetime.ExitAndReap | kernel/src/thread.c:95-162 | the same for a task that came after some moment, whatever it has done since, and even if others have come and gone meanwhile |
| Lifetime.Conserved | kernel/src/thread.c:119-162 | if the tasks of two states are the same and none was touched in between, the same frames are in use with the same counts, the same chunks and blocks are handed out, and the free frames differ by pool pages only |
| Lifetime.RunConfined | kernel/src/thread.c:236-577 | over any run, the trees, areas and pointers of tasks that do not act stay what they were, and kmalloc keeps for them what it had handed out |
| Lifetime.SameTasksSameFrames | kernel/src/vm.c:198-222 | which frames are in use, and how often, follows from the trees of the tasks there are |
| Lifetime.SameTasksSameFree | kernel/src/buddy.c:372-496 | and so do the free frames, up to pool pages |
| Lifetime.SameUsersSameCounts | kernel/src/buddy.c:446-452 | reference counts are a function of who maps what |
| Isolation.OthersDoNotMatter | kernel/src/thread.c:416-460 | whatever other processes do, in any order and for however long, the memory of a process stays as it is |
| Isolation.ForkIsACopy | kernel/src/thread.c:416-460 | after fork the child keeps the memory its parent had at that moment, whatever the parent does next |
| Isolation.BirthAndDeath | kernel/src/thread.c:383-550 | a process that comes into being and is reaped leaves no trace in the memory of others |
| Lifetime.EveryFrameInOneHand | kernel/src/buddy.c:372-496 | over any run, the frames that were free or with kmalloc at the start are, disjointly, the free ones, the page tables and user pages of tasks, and the frames of kmalloc |
| Lifetime.NothingLeaks | kernel/src/thread.c:119-162 | over any run, with any number of processes that come, act and are reaped while the tasks of its first moment (idle and shell, say) do nothing to user memory: when only these are left and the rest of the kernel has what it had, the same frames are in use with the same counts, and the free frames are the same but for the pages that pools have taken; without these so are all free blocks |
| Lifetime.Below | kernel/src/syscall.c:8-74 | every state between operations is a moment of a run in the sense of `IsRun`, the one after a half-way failed mmap included |
| Lifetime.CountsAreExact | kernel/src/thread.c:441-455 | in every reachable state the count of a user frame is the number of present user entries that point to it, no such frame is free, and a frame behind a writable entry is behind no other |
| Lifetime.UsedBySomeone | kernel/src/vm.c:198-222 | over any run, every frame in use is a table in the tree of a task, and of that task only, or a page mapped in the tree of the task |
| Lifetime.KmallocOnItsOwn | kernel/src/kmalloc.c:108-174 | no byte that kmalloc has handed out lies in a page table, a user page or a free frame |
| Lifetime.HeldByTasks | kernel/src/thread.c:145-160 | what kmalloc has handed out belongs to tasks or to the rest of the kernel, never to both |
| Lifetime.StructuresApart | kernel/src/thread.c:170-200 | the structures, stacks and areas of all tasks lie apart in memory |
| Process.Kernel.Kmalloc | kernel/src/timer.c:44-48 | kmalloc for timer events and other parts of the kernel, between any two actions of processes: nobody sees a difference and nothing of a task is touched |
| Process.Kernel.Kfree | kernel/src/timer.c:120-121 | giving such memory back |
| Accounting.UsedByTree | kernel/src/vm.c:164-222 | every table belongs to the tree of a root, every user page is mapped in one |
| Accounting.SameHeldSameBlocks | kernel/src/kmalloc.c:176-210 | if the same pointers are handed out as before, and none was given back on the way, they are of the same chunks and blocks |
| Accounting.FreeByOthers | kernel/src/buddy.c:432-496 | which frames are free follows from who holds what |
| Accounting.AllocStep | kernel/src/kmalloc.c:108-174 | a pointer from kmalloc is new to everybody and changes no view |
| Accounting.FreeStep | kernel/src/kmalloc.c:176-210 | a pointer given back takes nothing from anybody and changes no view |
| Process.Kernel.BreakSharing | kernel/src/trap.c:155-191 | after a write fault the page is writable and has the same contents; no view changes; it fails exactly when the frame is shared and no frame is free |
| Process.Kernel.DemandFill | kernel/src/trap.c:199-245 | an absent page gets a fresh frame with the permissions of its area; no view changes; it fails exactly when no frame is free |
| Process.Kernel.FindVma | kernel/src/trap.c:139-145 | the first area of the list that holds the address |
| Process.Kernel.ThreadCreate | kernel/src/thread.c:170-200 | the step that fork, execute and boot share: a task with the next pid at the second place of the queue, an empty address space, room for a task_struct and a stack of 4 KiB; the exact number of frames it takes; the history is the business of its callers |
| Process.Kernel.KernelThread | kernel/src/thread.c:170-200 | a kernel thread, as main creates idle and shell: a task without user memory, which is logged, so that `Valid` holds from the first task on |
| Process.Kernel.Build | kernel/src/thread.c:171-187 | structure, root and kernel stack of a task, none of them in use before |
| Process.Kernel.AddProgram | kernel/src/thread.c:336-376 | file and stack area, as many of them as kmalloc has room for; the view is the image of the program |
| Process.Kernel.NewArea | kernel/src/thread.c:273-285 | one more area exactly when kmalloc has room for its node, which holds a vm_area_struct; otherwise nothing changes |
| Process.Kernel.StartProgram | kernel/src/thread.c:344-376 | a new task with its parent and its areas |
| Process.Kernel.SwapTree | kernel/src/thread.c:250-259 | a fresh root that maps nothing; the old tree is gone and its root free, so no frame is lost on balance |
| Process.Kernel.Vacate | kernel/src/thread.c:249-268 | then the old areas are given back to kmalloc |
| Process.Kernel.Reload | kernel/src/thread.c:249-299 | and the areas of the program come in: the view is its image |
| Process.Kernel.CopyVmas | kernel/src/thread.c:390-414 | the first areas of the parent, in their order, as many as kmalloc has room for |
| Process.Kernel.AddChild | kernel/src/thread.c:387-414 | a task with copies of the areas, nothing mapped; the exact number of frames left |
| Process.Kernel.ShareTree | kernel/src/thread.c:416-460 | the page tables of the child: complete exactly when there are as many free frames as tables; otherwise the pages before the one at which the frames run out; with all areas and tables the child sees what its parent sees |
| Process.Kernel.Duplicate | kernel/src/thread.c:387-465 | child, areas, tables and parent in the order of the code; complete exactly when the areas are all there and the tables are; otherwise with the page at which it stopped |
| Process.Kernel.Dispose | kernel/src/thread.c:145-161 | the whole tree and all chunks and blocks of a task are given up, and nothing else |
| Process.Kernel.GiveBack | kernel/src/thread.c:151-160 | kfree of every area, the stack and the structure |
| Process.Kernel.Populate | kernel/src/syscall.c:49-55 | the pages of the area in order, zero and with its permissions, up to the first for which there is no frame; all of them exactly when the frames suffice for pages and tables |
| Process.Kernel.PopulateOne | kernel/src/syscall.c:51-53 | one page, which no process can see once it has the area |
| Process.Kernel.MapAt | kernel/src/syscall.c:37-73 | do_mmap at a given place: every exit, and when the invariant survives |
| Process.Kernel.MapArea | kernel/src/syscall.c:37-67 | populating, then the node of the area: every exit with what is left behind |
| Tasks.AstrayBefore | kernel/src/syscall.c:49-59 | whether pages are left in no area is decided by the frames and the list of nodes there are before the call |
| Process.Kernel.Attach | kernel/src/syscall.c:58-67 | the area becomes the first of the list exactly when kmalloc has room for its node |
| Tasks.Spoiled | kernel/src/syscall.c:52-59 | pages of an area that has not come about are accounted for and seen by nobody, but lie in no area |
| Process.Kernel.Translate | kernel/src/vm.c:164-190 | the walk of section 4.3.2 over the tables of a task, with its test for a leaf at each level, finds the frame exactly when a present entry allows the access, and never a superpage |
| Hardware.WalkIsHardware | kernel/src/vm.c:164-190 | in every tree of this kernel that walk finds what `walk_pte` finds: no entry that leads to a table has a permission bit, or any flag but V |
| Process.Kernel.Write | kernel/src/trap.c:166-184 | a store through a writable entry changes one byte of one process and nothing that another sees |
| Process.Kernel.constructor | kernel/src/thread.c:16-17 | before the first task nothing is in use and the history is empty |
| AddressSpace.PartialChild | kernel/src/thread.c:390-460 | what a child sees whose areas or pages are not all there |
| Steps.ForkStep | kernel/src/thread.c:416-460 | sharing a tree loses no frame and changes the view of the child only |
| Steps.ExecStep | kernel/src/thread.c:249-259 | moving to a fresh root and tearing the old tree down loses no frame and changes one view |
| Steps.ReapStep | kernel/src/thread.c:145-149 | tearing down the tree of a task that goes loses no frame and changes no other view |
| Steps.FillStep | kernel/src/trap.c:200-242 | making a page present with the contents its area promises is invisible |
| Steps.PrivateStep | kernel/src/trap.c:166-184 | giving a page its own frame or its write permission back is invisible |
| Steps.StoreStep | kernel/src/trap.c:166-184 | a byte written to a frame of a single user changes one byte of one view |
| Steps.AreaAdded | kernel/src/syscall.c:58-67 | an anonymous area that meets no other adds zeros to one view |
| Supply.SpareUsed | kernel/src/kmalloc.c:136-169 | what a request of up to one page takes: nothing from a list with a chunk, else one page |
| Supply.Servable | kernel/src/kmalloc.c:108-174 | when such a request can be met |
| Supply.FreeAfterNext | kernel/src/thread.c:395-414 | the frames left after any number of areas |
| Borders.ConfinedNext | kernel/src/thread.c:236-577 | what tasks do that came later leaves those of before alone |
| Borders.ConfinedFork | kernel/src/thread.c:383-460 | fork touches no task: trees, pages and pointers stay, up to write permission |
| Borders.ConfinedAccess | kernel/src/trap.c:132-254 | a fault touches only the task it is for |
| Borders.ConfinedMove | kernel/src/thread.c:249-299 | exec touches only its own task |
| Borders.ConfinedDeath | kernel/src/thread.c:145-161 | reaping touches only the task that goes |
| Machine.Machine.Kmalloc | kernel/src/kmalloc.c:108-174 | kmalloc beside the page tables: whatever it takes was free, and no table or user page changes |
| Machine.Machine.Kfree | kernel/src/kmalloc.c:176-210 | kfree beside the page tables: no table or user page changes |
| Machine.Machine.FreshRoot | kernel/src/thread.c:174-178 | a root that maps nothing, and no mapped page and no chunk has changed |
| Machine.Machine.CopyTree | kernel/src/thread.c:416-460 | the user half is shared, complete exactly when there are as many free frames as tables |
| Machine.Machine.DropTree | kernel/src/vm.c:198-222 | the map loses exactly the pages of one tree; kmalloc is not touched |
| Machine.Machine.InstallPage | kernel/src/trap.c:200-242 | a page with a fresh frame of given contents, at the exact cost in frames |
| Machine.Machine.MakePrivate | kernel/src/trap.c:155-189 | the write fault on a present page: clone or in place, failing exactly when the frame is shared and none is free |
| Machine.Machine.Walk | kernel/src/vm.c:241-254 | finds the entry of a page, valid exactly when the page is mapped |
| Fork.OneStop | kernel/src/thread.c:418-440 | there is only one page at which a copy with so many frames can stop: the first below a table that finds none |
| Fork.ShareEntry | kernel/src/thread.c:442-455 | one page becomes read-only for both sides and its frame gains one reference |
| Fork.CopyLeaves | kernel/src/thread.c:441-456 | every present user page of a leaf table is shared |
| Fork.CopyTable | kernel/src/thread.c:430-457 | one leaf table is copied, or no frame is free and there were fewer than tables |
| Fork.CopyMiddle | kernel/src/thread.c:429-458 | every leaf table below one root entry is copied, or memory has run out |
| Fork.CopySubtree | kernel/src/thread.c:418-459 | one root entry with all below it |
| Fork.CopyUserHalf | kernel/src/thread.c:416-460 | the whole user half is shared exactly when there are as many free frames as tables; otherwise the pages before the one at which the frames run out are, and no frame is free |
| Cow.Share | kernel/src/thread.c:443-453 | sharing one page keeps counts exact and writers exclusive |
| Cow.Repoint | kernel/src/trap.c:166-180 | giving a shared page its own frame keeps counts exact and writers exclusive |
| Cow.MakeWritable | kernel/src/trap.c:181-184 | restoring the write bit of the only user keeps counts exact and writers exclusive |
| Cow.MapFresh | kernel/src/trap.c:234-242 | mapping a fresh frame keeps counts exact and writers exclusive |
| Cow.Drop | kernel/src/vm.c:207-213 | dropping one page keeps counts exact, and its frame is released exactly with its last user |
| Cow.DropTable | kernel/src/vm.c:215-221 | a table has one reference, and releasing it does not disturb the counts of user pages |
| Cow.WriterIsSole | kernel/src/trap.c:166-184 | a frame behind a writable entry is behind no other entry |
| Vm.Memory.AllocPage | kernel/src/vm.c:157-162 | a zeroed page of one reference that nobody used, or none exactly when no frame is free |
| Vm.Memory.FreePage | kernel/src/buddy.c:432-496 | the page loses one reference and is free after its last |
| Vm.Memory.PageWalk | kernel/src/vm.c:164-190 | the map from user pages to leaf entries changes at exactly one page; exactly the missing tables are added, a frame each; the tables stay an unshared tree, and of the flags of an entry that leads to a table only V is set |
| Vm.Memory.MapPages | kernel/src/vm.c:192-196 | the map changes as `MapRange` says, at the cost of the missing tables of the range; the tables stay an unshared tree |
| Vm.MapRangeExact | kernel/src/vm.c:192-196 | map_pages changes exactly the pages of its range, each to its own frame with the flags given |
| Vm.Memory.InstallPage | kernel/src/trap.c:200-242 | the page gets a fresh frame with the given contents; every other mapped page keeps its frame, count and contents; the exact cost in frames |
| Vm.Memory.CopyShared | kernel/src/trap.c:166-180 | the clone path: own frame, same contents, write permission, one reference less on the old frame |
| Vm.Memory.RestoreWrite | kernel/src/trap.c:181-184 | the in-place path: only the write bit of that page changes |
| Vm.Memory.WalkPte | kernel/src/vm.c:241-254 | finds the entry of the page if its table exists, and what the table holds there is what the map says |
| Vm.Memory.PresentEntry | kernel/src/vm.c:241-254 | the entry walk_pte leads to is valid exactly when the page is mapped, and is its entry |
| Vm.Memory.UnmapPage | kernel/src/vm.c:224-239 | exactly one page is removed from the map |
| Vm.Memory.FreeUserSpace | kernel/src/vm.c:198-222 | the map loses exactly the pages of one tree, all its tables and its root are free, shared pages lose one reference and the rest is untouched |
| Vm.Memory.FreeMiddle | kernel/src/vm.c:202-217 | everything below one root entry is given up |
| Vm.Memory.FreeLeaves | kernel/src/vm.c:205-214 | every user page of one leaf table is given up |
| Vm.Memory.NewRoot | kernel/src/thread.c:174-178 | a root with an empty user half and the upper half of the kernel directory |
| Vm.Memory.NewPmd | kernel/src/vm.c:174-176 | a zeroed table behind an unused root entry changes no page of any tree |
| Vm.Memory.NewPt | kernel/src/vm.c:182-184 | a zeroed leaf table changes no page of any tree |
| PageTree.PutLeaf | kernel/src/vm.c:189 | writing a leaf entry changes the walk of exactly one page of one tree |
| PageTree.WalkPath | kernel/src/vm.c:166-185 | a walk passes only through tables of its own tree |
| PageTree.AddPmd | kernel/src/vm.c:174-176 | hooking in a second-level table keeps the trees unshared and all walks the same |
| PageTree.AddPt | kernel/src/vm.c:182-184 | hooking in a leaf table keeps the trees unshared and all walks the same |
| PageTree.RemovePt | kernel/src/vm.c:215 | an emptied leaf table can go without touching any walk |
| PageTree.RemovePmd | kernel/src/vm.c:218 | an emptied second-level table can go without touching any walk |
| Sv39.SplitJoin | kernel/src/vm.c:166-168 | the three indices of a page number determine it; the user half is where the first is below 256 |
| PageTree.MissingOne | kernel/src/vm.c:171-185 | a page costs a table for each of the two levels where there is none |
| PageTree.MissingNext | kernel/src/vm.c:192-196 | page by page, the missing tables of a range add up to those of the whole |
| AddressSpace.FillIsFilePage | kernel/src/trap.c:208-228 | what the handler copies into a fresh page is the file at that place, cut at the page and padded with zeros |
| AddressSpace.InstallInvisible | kernel/src/trap.c:208-242 | making a page present with those bytes changes no view |
| AddressSpace.RepointInvisible | kernel/src/trap.c:166-184 | moving a page to another frame with the same bytes changes no view |
| AddressSpace.ForkedViews | kernel/src/thread.c:416-460 | sharing changes no view but that of the child, and a complete child sees what its parent sees |
| AddressSpace.ProgramView | kernel/src/thread.c:267-299 | with nothing present, the areas of a program show its file from address 0 and a zeroed stack, or what there is room for of these |
| AddressSpace.ViewMapped | kernel/src/syscall.c:58-67 | a new anonymous area adds zeros to the view and changes nothing else |
| AddressSpace.ViewStored | kernel/src/trap.c:166-184 | a byte written to a frame of a single user changes that byte of that view only |
| AddressSpace.CutViews | kernel/src/vm.c:198-222 | tearing down one tree changes no other view |
| AddressSpace.FindPage | kernel/src/trap.c:139-149 | page-aligned areas hold all of a page or none of it |
| Mmap.FindGap | kernel/src/syscall.c:21-35 | terminates at the least page boundary from the hint on whose range meets no area, for any list of areas |
| Mmap.FirstFitByAddress | kernel/src/syscall.c:21-35 | address by address: the place found is the least page boundary from the hint on such that no address of the range lies in an area |
| Mmap.FitsByAddress | kernel/src/syscall.c:28 | the test of the loop is that no address is in both, but for an area without addresses, which clashes exactly if it lies inside the range |
| Mmap.FirstFitIgnoresOrder | kernel/src/syscall.c:21-35 | that address does not depend on the order of the list |
| Mmap.SkippedStartsClash | kernel/src/syscall.c:28-31 | every start jumped over clashes with the area jumped over |
| Mmap.FittingArea | kernel/src/syscall.c:58-67 | areas stay page-aligned and disjoint |
| Mmap.Hint | kernel/src/syscall.c:17-19 | a null, unaligned or low address is replaced by 0x1000000000, any other is kept |
| Mmap.RoundUp | kernel/src/syscall.c:10 | the least page boundary at or above |
| BuddyAllocator.Buddy.constructor | kernel/src/buddy.c:304-363 | boot: the allocator is well formed, free frames are exactly those no registered region touches, reserved ones are pinned |
| BuddyAllocator.ReservedByAddress | kernel/src/buddy.c:317-329 | byte by byte: a frame with a byte of a region is kept back, and no other unless a region is empty |
| BuddyAllocator.Buddy.Alloc | kernel/src/buddy.c:372-430 | null exactly for size 0, an order above 16, which is a size above 256 MiB, or when no aligned run of that order is free; else a block with at least the requested bytes, and less than twice as many unless it is one page, is split from the smallest adequate order, all its frames get the tag and one reference, and everything else stays allocated or free as it was |
| BuddyAllocator.LargestBlock | kernel/src/buddy.c:384-391 | a request has no order exactly beyond 256 MiB |
| BuddyAllocator.Buddy.Free | kernel/src/buddy.c:432-496 | one reference less; with the last one exactly the frames of the block become free; the allocator stays well formed |
| BuddyAllocator.Buddy.FlagReserved | kernel/src/buddy.c:314-324 | exactly the frames that a region touches are tagged and pinned |
| BuddyAllocator.Buddy.BuildFreeBlocks | kernel/src/buddy.c:326-363 | the carved blocks tile the unreserved frames with no two free buddies |
| BuddyAllocator.Buddy.LargestFit | kernel/src/buddy.c:338-360 | the largest aligned order that fits and is free throughout |
| BuddyAllocator.Buddy.BlockPush | kernel/src/buddy.c:208-222 | a block joins frame_array and the embedded list of its order; all other lists stay |
| BuddyAllocator.Buddy.BlockPop | kernel/src/buddy.c:225-231 | a block leaves the embedded list of its order; all other lists stay |
| BuddyAllocator.Buddy.FindOrder | kernel/src/buddy.c:392-400 | the smallest order with a free block, and beyond 16 exactly when no aligned run is free |
| BuddyAllocator.Buddy.TakeFrom | kernel/src/buddy.c:402-413 | splitting hands out the start of the block and returns all upper halves |
| BuddyAllocator.Buddy.Coalesce | kernel/src/buddy.c:461-487 | merges upwards until the buddy is not a free block of the same order or is out of range |
| BuddyAllocator.Buddy.GetPageRef | kernel/src/buddy.c:498-513 | adds one reference to the frame of the address |
| BuddyAllocator.Buddy.GetPageRefCount | kernel/src/buddy.c:515-532 | the count of the frame of the address, or 0 outside the managed memory |
| BuddyAllocator.PagesToOrder | kernel/src/buddy.c:120-130 | the smallest order whose blocks hold that many pages |
| BuddyTheory.RunInsideBlock | kernel/src/buddy.c:461-490 | every aligned run of free frames lies inside a single free block |
| BuddyTheory.BlocksAreMaximalRuns | kernel/src/buddy.c:326-363 | the free blocks are exactly the maximal aligned runs of free frames |
| BuddyTheory.FreeFramesDetermineBlocks | kernel/src/buddy.c:461-490 | the blocks of every order are a function of the set of free frames alone |
| BuddyTheory.NoBlockMeansNoRun | kernel/src/buddy.c:392-400 | the lists from an order on are empty exactly when no aligned run of that order is free |
| BuddyTheory.AllocFreeRestores | kernel/src/buddy.c:372-496 | freeing what was just allocated restores every entry of frame_array |
| BuddyTheory.FreeAllocRestores | kernel/src/buddy.c:372-496 | allocating what was just freed restores every entry of frame_array |
| BuddyRuns.RunAccount | kernel/src/buddy.c:372-496 | at every point of every run, the frames free at boot are exactly the free frames and those of the blocks held |
| BuddyRuns.HeldBlocksDisjoint | kernel/src/buddy.c:415-420 | blocks held at the same time do not overlap and contain no frame reserved at boot |
| BuddyRuns.BackToBoot | kernel/src/buddy.c:372-496 | after any run that has given everything back, frame_array is as at boot |
| BuddyRuns.FramesAddUp | kernel/src/buddy.c:314-490 | free frames plus held frames is the number free at boot |
| BuddyRuns.EveryFrameInOneBlock | kernel/src/buddy.c:9-22 | every frame is in exactly one block, free or allocated |
| BuddySpec.TagRoundTrip | kernel/src/buddy.c:20-22 | the tag macros recover index and order |
| BuddySpec.BuddyIsInvolution | kernel/src/buddy.c:467 | the buddy of the buddy is the block |
| Bits.MaskTest | kernel/src/buddy.c:348 | the mask test is the alignment test |
| Bits.XorIsOtherHalf | kernel/src/buddy.c:467 | exclusive-or with the size moves to the other half of the enclosing block |
| ListH.NodeSpace.InitListHead | kernel/include/list.h:20-24 | an empty ring |
| ListH.NodeSpace.ListAdd | kernel/include/list.h:28-51 | the node becomes the first of the ring; rings elsewhere stay |
| ListH.NodeSpace.ListDel | kernel/include/list.h:38-65 | the node leaves the ring; rings elsewhere stay |
| ListH.NodeSpace.ListEmpty | kernel/include/list.h:67-71 | true exactly for an empty ring |
| Boot.Startup.StartupAlloc | kernel/src/buddy.c:57-82 | terminates with the lowest page run that meets no region, null exactly when there is none, and registers it if the table has room |
| Boot.FirstRunByAddress | kernel/src/buddy.c:57-82 | byte by byte: the run found is the lowest of which no byte lies in a region, if none is empty |
| Boot.SkippedRunsClash | kernel/src/buddy.c:68-75 | every start skipped by the jump to the end of a clash also clashes |
| Boot.Startup.MemoryReserve | kernel/src/buddy.c:42-55 | appends a region unless the table is full |
| Boot.Startup.BuddyInit | kernel/src/buddy.c:290-363 | where both arrays go and when one finds no room; with at least two entries of the table left, the free frames are exactly those no registered region touches, the arrays included, and the allocator is well formed; with fewer the model stops, and `ArraysKeptBack` and `InitShared` say what goes wrong in the code |
| Boot.ArraysKeptBack | kernel/src/buddy.c:290-324 | the regions registered in the end cover the frames of both arrays if and only if at most 30 were registered before; with 31 the frames of ref_count are not covered, with 32 both arrays are one |
| Boot.InitShared | kernel/src/buddy.c:309-336 | the loops over both arrays when these are one leave counts in every entry, so no frame is found free |
| Boot.OneEntryIsTooFew | kernel/src/buddy.c:42-43 | 31 regions and three frames: the frame of ref_count is not kept back |
| Boot.FullTableSharesOnePlace | kernel/src/buddy.c:57-82 | 32 regions and three frames: both arrays are placed on the second |
| Setup.BuddyInit | kernel/src/buddy.c:235-363 | from what the device tree says to the free frames: where managed memory begins and how many frames it has; exactly when there is an allocator, and then a frame is free exactly when nothing registered touches its page in the addresses of the kernel |
| Setup.FreeByAddress | kernel/src/buddy.c:275-329 | byte by byte: no frame is free in the end that has a byte of the image, of what lies below it, of the blob of the device tree, of the 16 MiB from the archive on, of a region of the tree or an early one, or of the pages of an array of four bytes for each frame; and every other frame is, unless a region is empty |
| Setup.RegisterAll | kernel/src/buddy.c:264-288 | which regions are registered, in which order |
| Setup.TreeToFrames | kernel/src/dtb.c:386-468 | end to end: a frame is kept back exactly when a region of the kernel, an array, or a region of a well-formed tree touches its page in the addresses of the kernel |
| Setup.MeantFrames | kernel/src/buddy.c:264-266 | a region of the tree, a physical number, keeps the frame it means off the free lists exactly when it also reaches beyond the address the kernel sees that frame at |
| Setup.LowTreeKeepsNothing | kernel/src/dtb.c:449-455 | so regions of a tree that end below the kernel half keep back no frame |
| Setup.MeantButFree | kernel/src/dtb.c:449-455 | with such a tree a frame is free in the end exactly when nothing of the kernel itself touches it, whatever the tree reserves |
| Sample.TreeInWords | kernel/src/dtb.c:6-37 | a device tree word by word: its flattened form is that of the Devicetree Specification |
| Sample.FlatTreeDescribes | kernel/src/dtb.c:386-468 | a tree flattened behind its header is described at any aligned address, if the names of its properties are among the strings |
| Sample.FirmwareMemoryIsFree | kernel/src/dtb.c:443-456 | a concrete machine with an archive and the blob of its device tree: one MiB is reserved far above the image, and a frame of it is free after boot |
| Sample.MachineStarts | kernel/src/main.c:53-88 | this machine gets to its shell: it meets every condition of `Bringup.PowerOn` |
| Boot.RegisterFits | kernel/src/buddy.c:42-55 | while the table has room, every region found is registered |
| Boot.RegisterAppend | kernel/src/buddy.c:42-55 | registering one list after another is registering both in order |
| Bringup.StartKernel | kernel/src/main.c:53-61 | from the device tree to a kernel at rest; there is one exactly when the machine itself (memory, image, tree, archive and early regions) has entries for the arrays, a place for each of them and then a block for the map of pages; every invariant of processes holds, the frames they share with kmalloc are exactly those that no region and no array touches, and how many are free |
| Bringup.OnePlaceForArrays | kernel/src/buddy.c:57-82 | the machine leaves only one place for each of the two arrays, so that the condition of boot and the frames free in the end are determined by it |
| Bringup.Allocators | kernel/src/main.c:55-61 | page-frame allocator and kmalloc share the frames that were free; null exactly without an aligned run of free frames for the map of pages |
| Bringup.PlaceByFrames | kernel/src/kmalloc.c:97 | whether there is such a block is a matter of the free frames alone |
| Bringup.StartThreads | kernel/src/main.c:68-88 | the first timer event, idle and shell: the history begins, `Valid` holds, and six frames are gone |
| Bringup.PowerOn | kernel/src/main.c:53-88 | both together, under the same condition on the machine: from power-on to a state in which every operation of processes can follow, over exactly the frames that no region and no array touches |
| KmallocPools.Pools.Kmalloc | kernel/src/kmalloc.c:108-174 | null exactly for size 0, when the pool is empty and no page is free, or when no block is; else a chunk of the smallest adequate pool or a whole block that nobody holds, with at least the requested bytes; everything handed out before stays handed out, and no allocated frame changes |
| KmallocPools.Pools.Kfree | kernel/src/kmalloc.c:176-210 | every pointer handed out can be given back, whatever happened in between: a chunk returns to the list of its own pool, a large block to the page allocator; all others stay handed out |
| KmallocPools.Pools.HandedOutApart | kernel/src/kmalloc.c:108-210 | over any run, no two pointers handed out share a byte, chunks and large blocks alike, and all their bytes lie in frames of kmalloc |
| KmallocPools.KmallocInit | kernel/src/kmalloc.c:88-106 | eight empty pools and no pool page, null exactly when there is no block for the map from pages to pools |
| KmallocPools.Pools.FindPool | kernel/src/kmalloc.c:50-58 | the first pool whose chunks are large enough, -1 exactly above 2048 |
| KmallocPools.Pools.Refill | kernel/src/kmalloc.c:139-161 | a free page becomes chunks of one pool, or no page was free and nothing changed |
| KmallocPools.Pools.Slice | kernel/src/kmalloc.c:151-160 | the embedded list holds every chunk of the page once |
| KmallocPools.Pools.AllocChunk | kernel/src/kmalloc.c:136-169 | the head of the list is handed out, after a refill if the list is empty |
| KmallocPools.Pools.Pop | kernel/src/kmalloc.c:163-165 | the head of the list, which nobody holds, leaves it |
| KmallocPools.Pools.AllocLarge | kernel/src/kmalloc.c:121-134 | a whole block of the smallest adequate order whose pages belong to no pool |
| KmallocPools.Pools.MarkLarge | kernel/src/kmalloc.c:126-131 | the pages of a large block were marked -1 already, so the marking loop changes nothing |
| KmallocPools.Pools.PushChunk | kernel/src/kmalloc.c:201-203 | the chunk becomes the head of its list and all other embedded lists stay |
| KmallocPools.Pools.FreeChunk | kernel/src/kmalloc.c:199-203 | a chunk returns to its pool, a frame never does |
| KmallocPools.Pools.FreeLarge | kernel/src/kmalloc.c:192-197 | exactly the frames of the block become free |
| KmallocSpec.HeldApart | kernel/src/kmalloc.c:108-210 | no two pointers handed out share a byte |
| KmallocSpec.HeldInside | kernel/src/kmalloc.c:108-210 | all their bytes lie in frames that kmalloc has taken |
| KmallocSpec.HeldKinds | kernel/src/kmalloc.c:190-197 | a pointer handed out is a chunk exactly when the map names a pool for its page, and otherwise the start of a large block |
| KmallocSpec.ChunksDisjoint | kernel/src/kmalloc.c:151-160 | two chunks never overlap and none crosses a page boundary |
| KmallocSpec.RefillOk | kernel/src/kmalloc.c:148-160 | slicing keeps every chunk either handed out or exactly once on the list of its pool |
| KmallocSpec.PopOk | kernel/src/kmalloc.c:163-165 | so does handing one out |
| KmallocSpec.PushOk | kernel/src/kmalloc.c:199-203 | so does taking one back |
| KmallocSpec.PageAdded | kernel/src/kmalloc.c:139-149 | a page that joins a pool was free and was with nobody |
| KmallocSpec.BlockAdded | kernel/src/kmalloc.c:121-133 | a large block that is handed out was free and was with nobody |
| KmallocSpec.BlockRemoved | kernel/src/kmalloc.c:192-197 | a large block given back takes its frames with it and nothing else |
| RunQueue.Scheduler.Enqueue | kernel/src/thread.c:19-33 | the single cycle gains the thread behind its head |
| RunQueue.Scheduler.Dequeue | kernel/src/thread.c:35-66 | the single cycle loses exactly that thread; a thread that is not in it changes nothing |
| RunQueue.Scheduler.Schedule | kernel/src/thread.c:73-93 | the chosen thread is where the search from the current one first meets a running thread |
| RunQueue.NextRuns | kernel/src/thread.c:81-85 | the chosen thread runs, or it is the current one and no other runs |
| RunQueue.Scheduler.Contains | kernel/src/thread.c:509-540 | the search once around finds exactly the threads in the queue |
| RunQueue.Scheduler.SearchBehind | kernel/src/thread.c:127-141 | the search from behind the head finds the first of the threads wanted, or there is none |
| RunQueue.ReachIsFirst | kernel/src/thread.c:81-83 | no running thread is passed over |
| RunQueue.EveryoneGetsATurn | kernel/src/thread.c:73-93 | a running thread d places behind the current one is chosen within d calls |
| Timer.TimerQueue.AddTimerTicks | kernel/src/timer.c:40-72 | keeps, over any run: fired and then pending events are the registered ones by deadline, ties in order of registration, none fired early; the programmed deadline stays that of the head |
| Timer.TimerQueue.CoreTimerHandler | kernel/src/timer.c:107-135 | keeps the same while callbacks register timers; each event fires at the reading that found it due; when the handler ends nothing due is left, the deadline is that of the head, and schedule is called exactly if a callback asked for it |
| Timer.TimerQueue.Fire | kernel/src/timer.c:111-122 | one due event leaves the queue; a null callback has no effect |
| Timer.TimerQueue.RunCallback | kernel/src/timer.c:87-93 | what a callback registers is added in its order, and it may ask for another thread |
| Timer.ByDeadlineIsStable | kernel/src/timer.c:56-68 | repeated insertion sorts by deadline and keeps ties in order of registration |
| Timer.StableOrderIsUnique | kernel/src/timer.c:56-68 | there is only one such order |
| Timer.NothingLost | kernel/src/timer.c:56-68 | no event is lost or duplicated |
| Timer.InsertAt | kernel/src/timer.c:61-67 | splicing behind the last event that is not later is that insertion |
| Cpio.Find | kernel/src/cpio.c:177-218 | -1 for any null argument; otherwise what `Lookup` finds, on any memory, in the archive at `cpio_addr` |
| Cpio.LookupRoundTrip | kernel/src/cpio.c:177-218 | for every list of files encoded at an aligned address: contents and size of the first file of that name, -1 exactly if there is none |
| Cpio.Cat | kernel/src/cpio.c:118-163 | the bytes of the file it finds, with a newline at the end if they lack one |
| Cpio.SameSearch | kernel/src/cpio.c:118-218 | from an aligned address cpio_cat finds what cpio_find does, but for a name that lies behind a header whose fifth digit of the magic number is wrong |
| Cpio.WeakHeaderMatters | kernel/src/cpio.c:189-195 | an archive where cpio_find finds a file and cpio_cat does not |
| Cpio.RelativeRoundTrip | kernel/src/cpio.c:118-218 | on every encoded archive both find the same file |
| Cpio.FileRoundTrip | kernel/src/cpio.c:197-215 | an encoded file reads back: name, size, contents, length |
| Cpio.HexRoundTrip | kernel/src/cpio.c:12-26 | hexadecimal fields read back, in either case |
| Cpio.HexToUl | kernel/src/cpio.c:12-26 | the value of the digits |
| Cpio.OthersAreZeros | kernel/src/cpio.c:20-23 | a character that is no hexadecimal digit counts as zero |
| RawMemory.AlignmentsAgree | kernel/src/cpio.c:144-157 | aligning the address and aligning the offset agree if and only if the header is aligned |
| RawMemory.SameString | kernel/src/cpio.c:35-39 | true exactly for equal strings |
| Dtb.FindAndReserveMemory | kernel/src/dtb.c:386-468 | registers what `Scan` finds, in order; nothing without a tree or for a wrong magic number |
| Dtb.ScanReadsTree | kernel/src/dtb.c:405-467 | on every well-formed flattened tree: the first pair of every `reg` of the immediate children of the nodes named reserved-memory, in document order, once each, and nothing else |
| Dtb.ScanItems | kernel/src/dtb.c:405-467 | the scan of any subtree returns to the depths it started with |
| Dtb.NodeNameMatch | kernel/src/dtb.c:64-76 | true exactly for the name itself or the name, an at sign and a unit address |
| Dtb.SwapReadsBigEndian | kernel/src/dtb.c:38-44 | swapping a little-endian load reads the big-endian word |
| Dtb.PairRoundTrip | kernel/src/dtb.c:443-456 | address and size of a `reg` value, 64-bit from 16 bytes on, 32-bit from 8, nothing below |

## Left out

- Signals, `do_usleep` and the state of sleeping tasks: in particular the page of a signal stack, which is memory of kmalloc and mapped for the user outside every area, so neither the areas of a process nor the separation of kmalloc from user pages covers it.
- Process.Kernel.Mmap: after a call that returns -1 and leaves pages outside every area, `Intact` holds (frames, counts, views), and the state is a moment of a run like any other (`Lifetime.Below`), but the other operations are stated for `Valid` states only; nothing is claimed about what a process with such pages does next.
- Process.Kernel.Fork: the child's trap frame, its kernel context and the signal handlers it inherits (thread.c:467-493) are not modelled; a fork out of table memory leaves an unfinished child in the run queue, as in the code.
- Process.Kernel.PageFault: where a table is missing and must be added, there are frames for the page and its tables, or none at all, because `pagewalk` does not check the pages it allocates.
- Process.Kernel.ThreadCreate: `kmalloc` and `alloc_page` are not checked by the code, so enough free frames are a precondition; what becomes of a null stack or structure is not modelled.
- Process.Kernel.Exec: the archive lookup is a parameter; the entry point and stack pointer in the trap frame (thread.c:301-306) are not modelled, nor that a failing lookup returns with interrupts off.
- Process.Kernel.Reap: reaping is one step, although the code enables interrupts between leaving the queue and freeing.
- Process.Kernel.WaitPid: one pass of its loop; `NotYet` stands for the call of `schedule` and another pass. That every zombie is reaped in the end does not hold, because `do_stop` does not hand over children.
- Process.Kernel.Schedule: which task is next and what `satp` becomes are results; `switch_to` and the registers are not modelled.
- AddressSpace.FillIsFilePage: the file of an area is a value. The code reads it from the archive in memory, of which only 16 MiB are registered (buddy.c:281-286); that no file lies beyond them, where frames are free, is assumed.
- Process.Kernel.Kmalloc: which parts of the kernel call it, and when, is left open; that they keep to their own memory is assumed.
- Sv39.SplitJoin: entries are records of fields, not 64-bit words; shifts and masks on them are not modelled.
- Vm.Memory.FreeUserSpace: the contents of a frame are kept once as entries and once as bytes, so reuse of a table as data is only visible through the zeroing of `alloc_page`.
- BuddyAllocator.Buddy.Free: frames of a larger block other than its first keep their count when the block is freed, as in the code; nothing is claimed about the counts of free frames.
- Boot.Startup.BuddyInit: with fewer than two entries of the table left the code goes on; what becomes of arrays that are handed out as free frames is not modelled.
- Setup.BuddyInit: what the tree says about memory, and where image, tree and archive lie, are parameters; the values of `memory_reserve` do not wrap around.
- Bringup.StartKernel: the frame buffer and what else is registered before `buddy_init` is a parameter; memory starts at a page boundary. Where something is missing the code goes on without it; the model stops.
- Bringup.PowerOn: that memory has room for the first threads is a precondition, stated in frames, because the code does not check it.
- Lifetime.NothingLeaks: that idle and shell do nothing to user memory is a hypothesis about the run as far as exec and mmap go; loads and stores of a task without areas touch nobody (`Tasks.NoAreas`).
- KmallocPools.KmallocInit: without a block for its map the code goes on with a null map; the model stops there.
- KmallocPools.Pools.Kmalloc: the embedded links are a map from addresses, not bytes of the page; the lists hold while clients do not write to chunks they have given back.
- Timer.TimerQueue.CoreTimerHandler: clock readings and the requests of callbacks are parameters, and a handler whose callbacks never let it end is modelled up to any number of rounds.
- Cpio.Find: memory beyond the archive reads as zero.
- RunQueue.Scheduler.Schedule: the set of running threads is a parameter.
- Machine integers: sums of addresses, sizes and deadlines do not wrap around in the model.
- Translation caches, interrupts and critical sections: every kernel function is one step on one hart.
- `dtb_getprop` and its callers: only the last path segment decides a match, so the documented meaning of a path does not hold.
- `kernel/src/task.c`: its sorted insertion repeats that of the timer queue.
- `map_pages_4k`, `map_pages_2m` and `setup_vm`: fixed calls at boot; the kernel half of the tables is a constant here.
- Console, interrupt controller, firmware calls, display, shell and boot loader: device access without a state of its own worth a proof.
