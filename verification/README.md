# A verified model of a small 32-bit kernel

The project models three parts of the kernel and proves how they behave over whole runs.

* **Memory.** `Pmm` is the bitmap frame allocator. `Paging`, `Windows`, `UserMemory` and `Vmm` are physical
  memory as 4 KiB frames, the two-level page table in it (Intel SDM Vol. 3A, section 4.3), and `vmm_init` and
  `vmm_map_page` working on it in place: every access goes through the page walk, as it does on the machine,
  and where the walk ends is proved. `Elf` is the loader (TIS ELF Specification 1.2, Book I, chapter 2),
  `Executables` that format laid out field by field, `Args` and `UserStack` the argument block, `KernelFrames` control blocks and kernel stacks, `Process` the memory side
  of `create_task` and `create_user_process`. `StrayStores` is a run in which the kernel overwrites an image,
  `ReaderBuffers` what becomes of a line when it is copied to its reader's memory.
* **Tasks.** `Protocol` is the transition system: the ready ring, `schedule`, and EXIT, GETS, EXEC with the
  keyboard's wake-up. `Safety` is its invariant, `Runs` and `Lines` what follows for every run, `Answers`
  what callers find in EAX. `Tasks`,
  `Keyboards`, `Steps` and `Kernels` are the same on the heap: control blocks linked by `next`, pointer loops,
  the driver's buffer; each operation is proved to be one step of the transition system and to keep the
  invariant. `Sessions` is the kernel over time: any interrupts and system calls in any order.
* **Console.** `Console` is the 80x25 screen and the unbounded terminal it is a window of, `LineEditor` the
  editor behind SYS_GETS and what a session leaves on the screen. `Itoa` is the number formatter.

`Words`, `Options` and `Bytes` hold the small types the rest is built on.

## How it is modelled

* One system call or one interrupt is one atomic step. The system call gate is an interrupt gate
  (`kernel/syscall/syscall.c:153`; the comment above it calls it a trap gate), so this is the code's own
  intent, but `kernel/task/task.c:253` executes `sti` before SYS_EXEC has marked the parent as waiting
  (`kernel/syscall/syscall.c:129-130`). An interrupt in that gap can lose the wake-up; such interleavings are
  not part of this model.
* `context_switch` is "the current task changes, and the chosen one goes on behind the `schedule` it was
  blocked in". Saving and restoring registers is not claimed.
* `cli; hlt` is a final state.
* A task is numbered by its creation, PID `i + 1` being task `i`. A new task is linked in behind the boot task,
  so the ring runs through the numbers downward; that the `next` pointers do is part of what is proved.
* The kernel writes page tables, control blocks and kernel stacks through their physical addresses
  (`kernel/mem/vmm.c:116-122`, `kernel/task/task.c:53-99`, `kernel/task/task.c:147-152`,
  `kernel/task/task.c:213-241`). Below 8 MB the identity map leads such a store to its frame. Above it, the
  store goes to whatever frame that virtual page is mapped to, or faults. The model goes on as the code does:
  a fault ends it (`Stop`, `NeverBuilt`), a store that lands elsewhere makes the ghost flag `intact` false and
  execution continues. The contracts say exactly when that happens, in terms of the free frames and mappings
  before the call, and promise their results as long as `intact` holds; after a stray store nothing more is
  promised, and the operations of `Kernels` start from a machine where none has happened.
* Two conditions decide it. *Enough*: a free frame below 8 MB for everything a process takes; it comes to be
  without a stray store if and only if there are enough. *Quiet*: no virtual page from 8 MB to the end of
  memory is mapped; then, for programs that lie off those pages, every such store either reaches its frame or
  faults, so that success is success, and memory stays quiet.
* The bitmap is an object of its own, not the memory at its address (`kernel/mem/pmm.c:9`).
* Strings and program files are sequences of bytes that do not change while they are read. A caller's `argv`
  that itself lies in the stack window would be overwritten by the new mapping (`kernel/task/task.c:168-169`).
* The statuses, PIDs and lines each call is about are recorded in ghost state and in the transition system's
  history, so that "its own child" and "its own line" can be said.

## Model

| member | source | states |
|---|---|---|
| Pmm.SetPageBit | kernel/mem/pmm.c:15-19 | setting a frame's bit adds that frame to the set of used frames and no other |
| Pmm.ClearPageBit | kernel/mem/pmm.c:23-27 | clearing a frame's bit removes that frame and no other |
| Pmm.FrameAllocator.IsPageUsed | kernel/mem/pmm.c:32-35 | the bit test is membership; frames out of range count as used |
| Pmm.FrameAllocator.Init | kernel/mem/pmm.c:43-78 | exactly the frames below 4 MB are used and the counter is their number |
| Pmm.LowFramesAre | kernel/mem/pmm.c:71-77 | those are the frames whose address is below 0x400000 |
| Pmm.FrameAllocator.AllocPage | kernel/mem/pmm.c:83-92 | the least free frame, marked used and counted; NULL, and nothing changed, exactly when none is free; frame 0 is never returned |
| Pmm.FrameAllocator.FreePage | kernel/mem/pmm.c:96-106 | for any address, aligned or not, the frame it lies in becomes free and is discounted; NULL, out-of-range and already free frames change nothing; only an address from 1 to 4095 frees frame 0 |
| Pmm.FirstFreeIsLow | kernel/mem/pmm.c:83-92 | pigeonhole: an allocation returns at most frame number `used`, so below 2048 used frames it lies below 8 MB |
| Pmm.FullExactlyWhenAllUsed | kernel/mem/pmm.c:83-92 | an allocation fails if and only if every frame is used |
| Pmm.NeverHandsOutALiveFrame | kernel/mem/pmm.c:83-106 | in any run, between two allocations returning one frame there is a call that frees it |
| Pmm.FrameZeroStaysUsed | kernel/mem/pmm.c:83-106 | frame 0 stays used throughout a run, so that NULL is no frame's address, if and only if the run frees no address from 1 to 4095 |
| Vmm.Machine.constructor | kernel/kernel.c:96-99 | after boot the paging invariant holds, the frames below 4 MB are used, the first two tables are present, nothing above 8 MB is mapped |
| Vmm.Machine.Init | kernel/mem/vmm.c:33-82 | the directory and two tables end up word by word as an identity map of 8 MB and nothing else: every page below 8 MB leads to its own frame, present, writable and closed to user mode; other frames are untouched |
| Vmm.InitialInv | kernel/mem/vmm.c:33-82 | what `vmm_init` writes meets the invariant: table frames used, pairwise different, below 8 MB |
| Vmm.Machine.MapPage | kernel/mem/vmm.c:89-147 | the in-place algorithm, each store through the page walk, ends as `Paging.MapPage` says in each of its four ways: mapped, mapped with the table's stores astray, halted, fault |
| Vmm.Machine.MapKernelPage | kernel/mem/vmm.c:150-152 | when no store has gone astray the page leads to the frame with bits 0 and 1 of its entry set and bit 2 clear, and from 8 MB on the directory entry leaves the choice to it |
| Vmm.Machine.MapUserPage | kernel/mem/vmm.c:155-157 | the same with bits 0, 1 and 2 set: present, writable, open to user mode |
| Paging.MapPageSucceeds | kernel/mem/vmm.c:98-131 | where every mapping above 8 MB leads to a used frame, the stores to a new table reach it, and the page is mapped, if and only if the table is there or the least free frame is below 8 MB |
| Paging.NewTableExactlyLow | kernel/mem/vmm.c:113-131 | a new table's frame is cleared and holds the new entry if and only if it lies below 8 MB; else, unless the stores fault, it holds what it held and a used frame of data is overwritten |
| Paging.ReachedExactlyLow | kernel/mem/vmm.c:116-122 | the physical address of a frame that no page leads to, used as a virtual one, reaches it if and only if it lies below 8 MB |
| Paging.MapPageUpdatesOneKey | kernel/mem/vmm.c:89-147 | a mapping changes the translation of its own page to the entry given, and no other translation |
| Paging.MapPageKeeps | kernel/mem/vmm.c:89-147 | it keeps the invariant, and every used frame that is no page table keeps its content |
| Paging.MapPageFrames | kernel/mem/vmm.c:98-131 | it takes one frame exactly when the page table was missing |
| Paging.MapAllExactly | kernel/mem/vmm.c:89-147 | a run of mappings goes through if and only if a frame below 8 MB is free for each page table that is needed and missing |
| Paging.WalkIsASimpleMap | kernel/mem/vmm.c:89-147 | over any run of mappings the two-level walk equals a simple map from page to entry; the identity map of 8 MB is never touched |
| Paging.KernelStaysExactlyAbove | kernel/mem/vmm.c:134-146 | after a page is mapped for the user the kernel still finds all of its own first 8 MB at their addresses if and only if the page lies at 8 MB or above, or is given its own frame |
| Paging.ShippedProgramTakesBitmap | kernel/mem/pmm.c:9 | the first page of a program linked at 0x10000, as the shipped ones are (`userspace/Makefile:6`), moves the allocator's bitmap: its address leads to the program's new frame |
| Vmm.Machine.MapNewPage | kernel/elf.c:110-122 | allocating and mapping one user page ends as `UserMemory.MapNew` says: fresh, with or without a stray store, no memory, or halted |
| UserMemory.MapNewShort | kernel/elf.c:110-122 | it fails or strays only when frames below 8 MB are short for the page and its table |
| UserMemory.QuietNeverStrays | kernel/mem/vmm.c:116-122 | when no page from 8 MB to the end of memory is mapped, no store to a new table goes astray |
| UserMemory.MapNewKeeps | kernel/elf.c:110-122 | the page gets a frame of its own, in use, no page table, used by nothing before, to which no other page leads; all other translations stay |
| UserMemory.LowIsClosed | kernel/mem/vmm.c:37-60 | below 8 MB a program can neither read nor write: both fault |
| UserMemory.ProgramStores | kernel/mem/vmm.c:155-157 | a store in user mode, which needs bits 0, 1 and 2 in directory and table entry, succeeds at every address of a page of data, reads back, changes no other byte the program can read, and leaves the machine sane |
| UserMemory.StoreAllIsPutAll | kernel/libc.c:17-24 | bytes stored one by one through virtual addresses of mapped pages do not fault and land in those pages' own frames |
| Windows.PutAllThenGet | kernel/elf.c:13-19 | a block written to mapped pages reads back, every other byte of them is as before |
| Vmm.Machine.CopyIn | kernel/elf.c:13-19 | `memcpy` through the page walk: every byte stored, or a fault |
| Vmm.Machine.Fill | kernel/elf.c:23-29 | `memset` through the page walk: every byte stored, or a fault |
| Elf.MapSegment | kernel/elf.c:102-123 | every page of the segment has a frame of its own; what that took; it fails or strays only for want of frames below 8 MB, with its tables there only for want of any |
| Elf.LoopLeftOffLastPage | kernel/elf.c:102-106 | the page loop can be left through its guard, so that the load can succeed, if and only if the segment stays off the last page of the address space |
| Elf.CopySegment | kernel/elf.c:125-134 | after copying and zeroing, each byte of the segment reads back, and nothing else has changed |
| Elf.LoadSegments | kernel/elf.c:73-136 | all PT_LOAD segments are loaded, whether or not they share pages: on each page stands what the last segment touching it has put there; every page of them is mapped and no other; when it fails or strays; when it never strays |
| Elf.Load | kernel/elf.c:33-143 | a nonzero result is the entry point, with the image in memory, every used frame kept, and the frames taken counted; zero only for a bad file, a zero entry point or full memory; it fails or strays only for want of frames below 8 MB, and never strays off virtual pages from 8 MB to the end of memory |
| Elf.ImageByte | kernel/elf.c:125-134 | what a program reads from its image in user mode, through directory and table entries open to it, on a page no later segment touches: the file's bytes on [vaddr, vaddr + filesz), zeros up to vaddr + memsz |
| Elf.PagesAreTouched | kernel/elf.c:102-106 | the pages a segment gets are exactly those its addresses lie on |
| Elf.ImageIsWritable | kernel/elf.c:110-122 | after the load a program can store at every address of its image: it reads back and changes no other byte it can read |
| Elf.OverlapReadsLast | kernel/elf.c:102-134 | where segments overlap, a byte of the earlier one reads its content if and only if the last segment on that page puts the same there |
| Elf.ApartReadsAll | kernel/elf.c:73-136 | when no two segments share a page, every byte of each reads its content |
| Elf.LoadedLeavesAlone | kernel/elf.c:33-143 | no frame changes that was in use and is no page table |
| Executables.AcceptedExactly | kernel/elf.c:42-68 | for every header, laid out field by field as an Elf32_Ehdr: the file is taken exactly when it says ELF, 32-bit, little-endian, ET_EXEC, EM_386 |
| Executables.RefusedExactly | kernel/task/task.c:154-159 | a file that is not taken, or whose entry point is 0, and no other gives no process |
| Executables.FileReads | kernel/elf.h:16-82 | for every header and list of program headers, laid out as Elf32_Ehdr and Elf32_Phdr with anything between and behind them: what the loader reads is the entry point, the count, and type, offset, virtual address, file size and memory size of each header, not its physical address |
| Executables.ProgramIsLoaded | kernel/elf.c:73-143 | after such a file is loaded a program reads at each header's address the file's bytes from its offset on, then zeros |
| Executables.StartsAtEntry | kernel/elf.c:143 | a process made of it starts at e_entry, and e_entry is in its control block |
| UserStack.MapStack | kernel/task/task.c:161-170 | the four stack pages are mapped to frames of their own; when that fails or strays |
| UserStack.PushArgs | kernel/task/task.c:172-205 | strings, pointer table and argc stand right below each other under the stack's top, inside the four pages |
| Args.DecodeIsArgv | kernel/task/task.c:184-205 | decoding such a block from its start gives argc, then argc pointers and a NULL, and the caller's strings |
| UserStack.StackReads | kernel/task/task.c:172-205 | read in user mode through the page walk from ESP, the finished stack decodes to the caller's argument vector |
| KernelFrames.PushWords | kernel/task/task.c:213-241 | words pushed through a frame's physical address stand at the top of the frame that address leads to, the rest of it and every other frame unchanged; a fault exactly when it leads nowhere |
| KernelFrames.NewControlBlock | kernel/task/task.c:147-152 | a frame taken, and its first 19 words cleared, no more, where its address leads: the frame itself, nothing else in memory changing, if and only if it lies below 8 MB; a fault exactly when the address is unmapped |
| KernelFrames.NewKernelStack | kernel/task/task.c:207-241 | the same for a kernel stack and the words on it |
| KernelFrames.NewBootBlock | kernel/task/task.c:34-50 | the same for the boot task's control block and the nine fields set in it |
| KernelFrames.SetProcessFields | kernel/task/task.c:195-243 | the fields of a cleared control block stored through its address: afterwards its 19 words are id, registers with eip, esp and eflags, state ready, parent, argc and argv, and zeros, and no other frame has changed |
| KernelFrames.SetTaskFields | kernel/task/task.c:68-106 | the same for a kernel task: no parent, no arguments |
| KernelFrames.TakingMeans | kernel/task/task.c:147-152 | the words are in the frame taken if and only if a frame below 8 MB was free; when memory is quiet, the only other ends are a fault and NULL |
| KernelFrames.BootFieldsHold | kernel/task/task.c:40-48 | the nine fields are id 1, state running, eip, esp and ebp zero, eflags with interrupts on, the link to itself, no parent, no awaited child; no other word of the frame changes |
| Process.StartsTheProgram | kernel/task/task.c:222-239 | what `popad`, `popfd` and `iret` take from the new kernel stack: entry point, user stack, user segments, interrupts on |
| Process.StartsTheTask | kernel/task/task.c:78-96 | the same for a kernel task |
| Process.ProgramsByName | kernel/task/task.c:131-145 | "shell.bin" and no other path gives the shell's file, "fake_ai.bin" and no other the second one, any other path none |
| Process.CreateUserProcess | kernel/task/task.c:120-255 | a process is returned and no store has gone astray if and only if the file is a program and frames below 8 MB are enough for control block, image, stacks and missing tables; exactly then memory holds the control block with PID, parent, registers, argc and argv in its words, a user stack in frames of its own, the image and the argument vector as the program finds them, and the kernel stack, in the next free frames; with the tables there and a frame below 8 MB for the control block, a PID is returned exactly when the kernel stack's page is mapped, rightly exactly when its frame is below 8 MB; when memory is quiet, every process returned is sound; failure gives the control block back |
| Process.FieldsComplete | kernel/task/task.c:195-243 | storing the fields in the control block, after the kernel stack has been filled, leaves image, arguments and kernel stack as they are and completes the process |
| Process.ProgramCanWrite | kernel/task/task.c:161-170 | a new program can store at every address of its image and from 0xBFFFC000 to 0xC0000000, its stack: it reads back and changes no other byte it can read |
| Process.StackIsNth | kernel/task/task.c:143-211 | the kernel stack gets the frame that comes next after those of block, image and stack |
| Process.MappedSince | kernel/task/task.c:207-224 | its address is mapped exactly when it was before, or the image or the user stack covers it |
| Process.StackInTheImage | kernel/task/task.c:207-224 | then an image that covers that address no longer holds there what was loaded |
| ReaderBuffers.CopyLine | kernel/keyboard.c:108-109 | `memcpy` of the line and the NUL behind it through the page walk in force at the Enter: every byte stored, or a fault |
| ReaderBuffers.LineIsRead | kernel/keyboard.c:108-109 | with pages that lead to frames of data of their own it does not fault; the program reads the line and the NUL at the buffer's address and what it read before at any other address of those pages |
| ReaderBuffers.LineReachesCaller | kernel/keyboard.c:85-108 | while the buffer's translations stay, it lands in the frames the buffer had when SYS_GETS was called |
| ReaderBuffers.LineGoesToNewStack | kernel/keyboard.c:108-109 | when a process has been created between the call and the Enter, a line for a buffer on the stack goes to the new program's stack: the new program reads it, and no frame of data in use at the call, the caller's stack among them, has changed |
| StrayStores.Run | kernel/task/task.c:207-255 | with 16 MB, `tasking_init`, then a program of one page at 8 MB, then one of 1020 pages, the functions called directly one after the other: the second is given a PID, its kernel stack is frame 2059, and the byte at 0x80BFFC of its image reads 0x23 instead of 0 |
| Process.CreateTask | kernel/task/task.c:53-106 | two frames or none; a sound task, its control block's fields and its kernel stack in memory, exactly when two frames below 8 MB are free; with one of them, how it ends depends on whether the second frame's address is mapped, and where its words then are; when memory is quiet, every task returned is sound |
| Console.PrintIsWrite | kernel/kernel.c:21-53 | printing on the screen is writing on the unbounded terminal |
| Console.ScreenShowsTape | kernel/kernel.c:21-69 | after any output the screen is the last 25 rows of the terminal and the cursor is on the screen |
| Console.CellHoldsBoth | kernel/kernel.c:35 | what a cell's two bytes hold; a negative character covers its colour |
| Console.BlankIsSpace | kernel/kernel.c:28-48 | a blanked cell shows a space, code 32 |
| Console.ClearedIsSpaces | kernel/kernel.c:61-69 | a cleared screen is 25 rows of 80 spaces in the colour given, the cursor at the first |
| Console.GlyphGoes | kernel/kernel.c:34-52 | a character goes to cell 80 y + x, the cursor one to the right, from column 79 to the next row, from the last cell one row further after a scroll |
| Console.NewlineGoes | kernel/kernel.c:22-52 | code 10 goes to the start of the next row, on row 24 with a scroll |
| Console.BackspaceGoes | kernel/kernel.c:25-33 | code 8 blanks the cell before the cursor and goes there, also across the start of a row; at the start of the screen nothing |
| Console.TextFillsRows | kernel/kernel.c:34-69 | a text of up to 1999 characters printed on a cleared screen: character k stands in row k / 80, column k % 80, behind it are spaces, and the cursor stands there |
| Console.Vga.PrintChar | kernel/kernel.c:21-53 | the in-place driver does what the screen function says |
| Console.Vga.PrintString | kernel/kernel.c:55-59 | the same, character by character |
| Console.Vga.ClearScreen | kernel/kernel.c:61-69 | the screen of an empty terminal |
| LineEditor.SessionAgrees | kernel/keyboard.c:94-141 | after any keys the terminal from the session's start on holds exactly the edit buffer, then blanks; everything before is untouched |
| LineEditor.StartStaysVisible | kernel/keyboard.c:126-138 | the place where the session began is still on the screen, whatever wraps and scrolls there were |
| LineEditor.ScreenShowsLine | kernel/keyboard.c:94-141 | on the screen the cells right before the cursor show the edit buffer |
| LineEditor.BackspaceUndoes | kernel/keyboard.c:126-138 | a backspace undoes a key that was taken |
| LineEditor.KeysMakeTheLine | kernel/keyboard.c:131-138 | keys with codes from 32 to 126 make up the line as typed: all of them up to 255 and one less than the buffer holds, of more the longest prefix that fits |
| LineEditor.OtherKeysEdit | kernel/keyboard.c:126-138 | code 8 takes the last character away; any other key outside 32 to 126 leaves the line as it is |
| Keyboards.KeysType | kernel/keyboard.c:32-69 | the character each key types, row by row |
| Keyboards.OthersTypeNothing | kernel/keyboard.c:144-167 | releases and all other scancodes type nothing |
| Keyboards.EnterIsNewline | kernel/keyboard.c:32-69 | scancode 28 types code 10, which ends a line |
| Keyboards.Keyboard.PrepareForGets | kernel/keyboard.c:72-91 | a new session with an empty line, or nothing while another task reads |
| Keyboards.Keyboard.FinishLine | kernel/keyboard.c:99-124 | the reader's buffer gets the line and a NUL and is otherwise untouched, the reader is woken with the line's length |
| Keyboards.Keyboard.EditLine | kernel/keyboard.c:126-138 | push if there is room, pop, or ignore; exactly a key that was taken is echoed |
| Kernels.Kernel.KeyboardInterrupt | kernel/keyboard.c:144-167 | one step for a key with a character, none for any other scancode; its effect on screen, line and reader's buffer |
| Sessions.Serve | kernel/syscall/syscall.c:51-143 | any interrupt or system call is one event of the transition system, or none for a scancode without a character; unless it is the Enter that ends it, the reading session keeps its task, buffer and size, its line changes by the key only, and the screen by the echo or what is printed |
| Sessions.ServeAll | kernel/syscall/syscall.c:51-143 | on a quiet machine, any interrupts and system calls one after another, by whichever tasks, are a run of the transition system, until the processor halts or faults |
| Sessions.TypeLine | kernel/keyboard.c:94-167 | on a quiet machine, with ticks, keys, prints, exits, executions and other tasks' reads in any order before the Enter: the reader's own buffer holds the fold of the keys and a NUL, the rest of it untouched, the reader is ready to return the length, and the screen shows the echo with what was printed; only a halt or a fault prevents it |
| Sessions.ScreenIsEcho | kernel/keyboard.c:126-138 | when no task prints, the screen is the echo of the keys alone, whatever else happens |
| Protocol.ChosenIsNearest | kernel/task/task.c:271-303 | the search finds the first runnable task behind the current one, and none exactly when no task is runnable |
| Protocol.RingIsOneCycle | kernel/task/task.c:109-115 | from any task the ring leads to every other, in as many steps as their distance |
| Safety.StepKeeps | kernel/syscall/syscall.c:63-142 | every system call and interrupt keeps the invariant |
| Runs.AlwaysSafe | kernel/syscall/syscall.c:51-143 | the invariant holds in every reachable state |
| Runs.OneRunning | kernel/task/task.c:291-303 | outside halt exactly one task is running, the current one |
| Runs.WaitsForALiveChild | kernel/syscall/syscall.c:122-134 | who waits for a child waits for the PID of a task of its own that has not exited |
| Runs.ExecReturnsOwnChildsStatus | kernel/syscall/syscall.c:64-75 | in every run, what is recorded as returned by SYS_EXEC is what its own child passed to SYS_EXIT, and at most once for each child |
| Runs.ExitIsDelivered | kernel/syscall/syscall.c:64-75 | an exited child's status has been returned to its parent once, or the parent is ready with it in hand |
| Runs.ExitsStayForever | kernel/syscall/syscall.c:64-75 | no later step alters a status |
| Answers.ImmediateAnswers | kernel/syscall/syscall.c:77-142 | an unknown call, a refused SYS_GETS and a refused or failed SYS_EXEC leave 0xFFFFFFFF in the caller's EAX, SYS_PUTC leaves 0; no other task changes, and of the caller nothing else |
| Answers.OthersKeepEax | kernel/syscall/syscall.c:51-143 | no step changes EAX of a task that is not the current one after it, nor of one that neither makes a call nor comes back from one |
| Answers.StepReturns | kernel/syscall/syscall.c:108-134 | when a step adds a return of SYS_EXEC or SYS_GETS to the record, the task it names is the current one, running, with the recorded value in EAX |
| Answers.StaysOrGoesOn | kernel/syscall/syscall.c:108-134 | a task blocked in SYS_EXEC, or with a line typed for it, stays so or goes on with its answer in EAX: its child's exit status, the line's length |
| Answers.ExitIsEvent | kernel/syscall/syscall.c:64-75 | every recorded exit status was passed to SYS_EXIT by that task, in an event of the run |
| Answers.ExecReturnsInEax | kernel/syscall/syscall.c:122-134 | in every run each return of SYS_EXEC belongs to an earlier SYS_EXIT of the caller's own child, and leaves the status passed there in the caller's EAX |
| Answers.AnswerComes | kernel/task/task.c:271-303 | a parent whose child has exited, and a reader whose line has been typed, go on with that answer in EAX within as many `schedule` calls as their ring distance, plus one for each task inserted on the way |
| Answers.CreatedTaskIs | kernel/task/task.c:215-251 | the task a call adds is ready, with the current task as its parent, or none for a kernel task, and its own control block; a failed call adds none |
| Lines.LineIsOfKeysSince | kernel/keyboard.c:94-141 | in every reachable state with a reader, its line is what the line editor makes of exactly the keys pressed since its own call of SYS_GETS, whatever ticks, system calls and other tasks' reads came between |
| Lines.GetsReturnsOwnLine | kernel/syscall/syscall.c:83-110 | in every run, each recorded return of SYS_GETS belongs to a call of the same task and a later Enter: it gives the length of the line that the keys between the two make |
| Answers.GetsReturnsInEax | kernel/syscall/syscall.c:105-108 | and that length is in the caller's EAX when it comes back |
| Lines.EachLineIsReturnedOnce | kernel/syscall/syscall.c:83-110 | conservation: at every point of every run, for every value, the times it was returned and the tasks that are ready to return it add up to the Enters that ended such a line; none is lost, doubled or made up |
| Lines.LineArrives | kernel/task/task.c:271-303 | a task whose line has been typed has returned from SYS_GETS with it after as many `schedule` calls as its ring distance, plus one for each task inserted on the way |
| Lines.KeysEditTheLine | kernel/keyboard.c:126-138 | while a task reads, the keys served build up the fold of the line editor, whatever happens between them; keys alone change nothing else |
| Lines.EnterDeliversTheLine | kernel/keyboard.c:99-124 | the Enter that ends them wakes the reader with the length of the line they make, and changes nothing else |
| Lines.GetsReadsOrLocksOut | kernel/keyboard.c:72-91 | a call of SYS_GETS makes its caller the reader when nobody reads, and locks it out when another task does |
| Lines.GetsCanReturnExactlyWhenFree | kernel/syscall/syscall.c:83-110 | after a call of SYS_GETS some continuation makes the caller ready again if and only if nobody was reading and another task can run; else it is locked out for good, or the processor has halted |
| Runs.LockedOutForever | kernel/keyboard.c:76-83 | a second concurrent reader is blocked and never woken again |
| Runs.PidsAreBounded | kernel/task/task.c:68 | in every run there are at most as many PIDs as frames |
| Runs.HaltsExactlyWhenNoneRunnable | kernel/task/task.c:274-300 | `schedule` halts if and only if no task is runnable |
| Runs.NeverHaltsWhileBootStays | kernel/task/task.c:274-300 | no run halts in which the boot task does not block or exit |
| Runs.BoundedWait | kernel/task/task.c:271-303 | a ready task runs within as many `schedule` calls as its ring distance, plus one for each task inserted on the way, whatever else happens |
| Kernels.Kernel.Schedule | kernel/task/task.c:260-317 | the pointer loop does what the transition system's `Schedule` says |
| Kernels.Kernel.Insert | kernel/task/task.c:245-251 | the pointer insertion keeps the ring one cycle and adds the new task right behind the boot task |
| Kernels.Kernel.NextReachesAll | kernel/task/task.c:109-115 | following `next` pointers leads from any task to every other |
| Kernels.Kernel.NextIdIsBounded | kernel/task/task.c:215 | the next PID is at most the number of frames plus one |
| Kernels.Kernel.TaskingInit | kernel/task/task.c:34-51 | the boot task alone in the ring, running, with PID 1 and its control block's fields in the least free frame, soundly exactly when a frame below 8 MB is free; nothing when memory is full |
| Kernels.Kernel.CreateTask | kernel/task/task.c:53-118 | two frames, one PID, the control block in memory with that PID, and one ring place, exactly when two frames below 8 MB are free; NULL leaves tasks, PIDs and frames exactly as before |
| Kernels.Kernel.CreateUserProcess | kernel/task/task.c:120-255 | the new task in the ring with its PID and parent, the same PID and the parent's address in its control block, everything set up in memory exactly when frames below 8 MB are enough, or -1 |
| Kernels.Kernel.SysExit | kernel/syscall/syscall.c:64-75 | one step of the transition system; the invariant holds; who comes back from a call has its answer in `eax` |
| Kernels.Kernel.SysPutc | kernel/syscall/syscall.c:77-81 | one step, the character on the screen, 0 in the caller's `eax` |
| Kernels.Kernel.SysGets | kernel/syscall/syscall.c:83-110 | one step; a null buffer or a size of zero is refused with 0xFFFFFFFF in the caller's `eax`; who comes back from a call has its answer in `eax` |
| Kernels.Kernel.SysExec | kernel/syscall/syscall.c:112-137 | one step, and the new process in memory exactly when frames below 8 MB are enough; quiet memory stays quiet and no store goes astray; a null path, or a process that cannot be made, leaves 0xFFFFFFFF in the caller's `eax`; who comes back from a call has its answer in `eax` |
| Kernels.Kernel.OtherCall | kernel/syscall/syscall.c:139-141 | one step; 0xFFFFFFFF in the caller's `eax` |
| Kernels.Kernel.Tick | kernel/timer.c:18-26 | one step; who comes back from a call has its answer in `eax` |
| Itoa.ToString | kernel/libc.c:59-100 | the buffer gets the numeral and a NUL and is otherwise untouched; an empty string for a base out of range |
| Itoa.ParseNumeral | kernel/libc.c:59-100 | parsing the numeral gives the value back, for every value and base |
| Itoa.DigitsInOrder | kernel/libc.c:85 | the digits are '0' to '9', then 'a' to 'z' |
| Itoa.NoLeadingZero | kernel/libc.c:71-87 | a leading zero only in "0" |
| Itoa.AtMost32Digits | kernel/libc.c:81-87 | at most 32 digits, at most 10 in base 10 |

## Left out

- Elf.Load: takes on trust what the code does not check: a file that holds its header table and segment data, filesz <= memsz, segments outside the first 8 MB and off the last page (where the loop is never left through its guard, `Elf.LoopLeftOffLastPage`; it wraps to page 0 and goes on until an allocation fails, the processor halts or a store faults). The shipped programs are linked at 0x10000 (`userspace/Makefile:6`), inside the first 8 MB; loading them is excluded: their first page takes the bitmap away from the allocator (`Paging.ShippedProgramTakesBitmap`), and what the allocator does from then on is not modelled. Where a later segment maps a page anew, what it does not fill of that page is not described.
- Elf.MapSegment: stated for segments outside the first 8 MB and off the last page, for the reasons given for `Elf.Load`.
- Elf.LoadSegments: the same.
- Elf.Load: a failure in the middle leaks the frames already taken, as the code says (`kernel/elf.c:116`); only that nothing in use changes is stated for it.
- Process.CreateUserProcess: when frames below 8 MB are not enough and page tables are missing too, which of failure, halt, fault and stray store comes first is not told apart; the same leak as above on failure; the control block's fields are stored after the kernel stack is filled, where the code stores argc, argv, id, state and parent before; its link `next`, and the change of the boot task's, are those of the heap object in `Tasks` only. The strings must fit the four pages together with their pointers.
- Kernels.Kernel.SysExec: says nothing of the machine after a stray store, and no operation is called on it again; the same holds for the other operations that take frames.
- Vmm.Machine.MapPage: it takes any page, but that the invariant and the identity map are kept (`Paging.MapPageKeeps`) is stated for pages from 8 MB on. `elf_load` of the shipped programs maps pages at 0x10000 anew (`kernel/elf.c:122`) over the identity map; that caller is excluded. TLB and control registers are not modelled.
- UserStack.PushArgs: the array of pointers lives on the caller's kernel stack (`kernel/task/task.c:187`); that it fits there is not checked by the code and not modelled.
- Kernels.Kernel.SysGets: in the heap object the reader's buffer is an array of its own, as long as the size passed; so in `Sessions.TypeLine`. What the copy does to memory behind a virtual address is `ReaderBuffers.CopyLine`, which is not called from there; a buffer below 8 MB, which the code would write just the same, is left out.
- Sessions.ServeAll: whole runs on the heap are stated for quiet memory, where no store can go astray; `Sessions.Serve` is a single step on any sound machine. Tasks created by the kernel itself between the calls (`create_task`, `create_user_process` outside SYS_EXEC) are events of `Protocol`, not among the happenings of `Sessions`.
- Kernels.Kernel.TaskingInit: in the heap object the fields it leaves uninitialised stand as 0; calls made before it, or after it failed, are not modelled.
- Interrupts inside a system call, and the register save and restore of boot/context_switch.s.
- Isolation between processes: there is one page directory, and each new process remaps the stack window; `ReaderBuffers.LineGoesToNewStack` is the one consequence stated.
- The switch on EAX in `syscall_handler`: there is one method for each of its cases.
- The debug overlay `debug_putc_at`, which writes over the screen outside the terminal's discipline.
- GDT, IDT, PIC, PIT, port I/O, fault printing, the hexadecimal printers, user programs and build files.
