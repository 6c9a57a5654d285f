/** The memory side of `create_user_process`: control block, program image, user stack with its
    argument block, kernel stack. */
module Process {
  import opened Words
  import opened Options
  import opened Paging
  import opened Bytes
  import opened Windows
  import opened UserMemory
  import opened Vmm
  import opened Args
  import opened KernelFrames
  import opened UserStack
  import opened Elf

  // ----- the image and the stack together -----

  /** A byte of segment `j` on whose page neither a later segment nor the stack lies. */
  ghost predicate ByteReady(t: Sys, file: seq<Byte>, gs: seq<Segment>, j: nat, k: nat) {
    j < |gs| && Loadable(gs[j]) && k < gs[j].memsz &&
    !CoveredLater(gs, |gs|, j, PageOf(gs[j], k)) && !OnStack(PageOf(gs[j], k)) ==>
      ByteLoaded(t, file, gs[j], k)
  }

  /** The image as the program finds it: on each page what the last segment there has put, but for the
      pages of the stack. */
  ghost predicate ImageReady(t: Sys, file: seq<Byte>, gs: seq<Segment>) {
    (forall j: nat, k: nat :: ByteReady(t, file, gs, j, k)) && (forall p: nat :: PageReady(t, gs, p))
  }

  /** A page of the image is the program's. */
  ghost predicate PageReady(t: Sys, gs: seq<Segment>, page: nat) {
    OnImage(gs, |gs|, page) && !OnStack(page) ==> UserPage(t, page)
  }

  lemma ImageKept(s: Sys, t: Sys, u: Sys, file: seq<Byte>, gs: seq<Segment>)
    requires Loaded(s, t, file, gs, |gs|) && Grew(t, u)
    requires forall p: nat :: p < PAGES && !OnStack(p) ==> SameWalk(t, u, p)
    ensures ImageReady(u, file, gs)
  {
    forall j: nat, k: nat
      ensures ByteReady(u, file, gs, j, k)
    {
      assert LoadedAt(t, file, gs, |gs|, j) && ByteStands(t, file, gs, |gs|, j, k);
      if j < |gs| && ByteLoaded(t, file, gs[j], k) && !OnStack(PageOf(gs[j], k)) {
        ByteKept(t, u, file, gs[j], k);
      }
    }
    forall p: nat
      ensures PageReady(u, gs, p)
    {
      assert PageLoaded(t, gs, |gs|, p);
      if OnImage(gs, |gs|, p) && !OnStack(p) { DataPageKept({}, t, u, p, FrameOf(Walk(t, p))); }
    }
  }

  lemma ImageAndStack(s: Sys, t: Sys, u: Sys, v: Sys, k: nat, file: seq<Byte>, gs: seq<Segment>,
                      w: Window, argv: seq<seq<Byte>>, start: nat, at: nat, esp: nat)
    requires Loaded(s, t, file, gs, |gs|) && StackReady(t, u, w, argv, start, at, esp) && FrameAdded(u, v, k)
    requires AllStrings(argv) && |argv| < WORD
    ensures Extends(s, v) && ImageReady(v, file, gs)
    ensures Decode(MemoryReader(v), esp) == Some(argv)
  {
    StackKept(t, u, v, w, argv, start, at, esp);
    StackReads(t, v, w, argv, start, at, esp);
    StackExtends(t, v, w, argv, start, at, esp);
    ExtendsTransitive(s, t, v);
    ImageKept(s, t, v, file, gs);
  }

  // ----- starting from a kernel stack -----

  /** What the processor takes from the stack when a task is started: `popad`, `popfd`, then `iret`,
      which to user mode takes five words. */
  datatype Start = Start(registers: seq<nat>, flags: nat, eip: nat, cs: nat, eflags: nat, esp: nat, ss: nat)

  function PopUser(f: Frame, at: nat): Start
    requires at + 14 <= 1024
  {
    Start(f[at..at + 8], f[at + 8], f[at + 9], f[at + 10], f[at + 11], f[at + 12], f[at + 13])
  }

  /** A new program starts at its entry point, with its stack, in user segments with interrupts on. */
  lemma StartsTheProgram(f: Frame, entry: Word32, esp: Word32)
    requires Pushed(f, UserFrame(entry, esp))
    ensures PopUser(f, 1024 - 14) == Start([0, 0, 0, 0, 0, 0, 0, 0], 0x202, entry, 0x1B, 0x202, esp, 0x23)
  {
    var words := UserFrame(entry, esp);
    forall at: nat | 1010 <= at < 1024
      ensures f[at] == words[1023 - at]
    {
      assert PushedAt(f, words, 1023 - at);
    }
    assert f[1010..1018] == [f[1010], f[1011], f[1012], f[1013], f[1014], f[1015], f[1016], f[1017]];
  }

  /** A new kernel task starts at its entry point; `iret` within the kernel takes three words. */
  lemma StartsTheTask(f: Frame, entry: Word32)
    requires Pushed(f, KernelFrame(entry))
    ensures forall k :: 1012 <= k < 1020 ==> f[k] == 0
    ensures f[1020] == 0x202 && f[1021] == entry && f[1022] == 0x08 && f[1023] == 0x202
  {
    var words := KernelFrame(entry);
    forall at: nat | 1012 <= at < 1024
      ensures f[at] == words[1023 - at]
    {
      assert PushedAt(f, words, 1023 - at);
    }
  }

  // ----- create_user_process -----

  /** `block` and `stack` are the frames of the control block and of the kernel stack. */
  datatype NewProcess =
    | Built(id: nat, parent: nat, block: nat, entry: nat, esp: nat, argvAt: nat, stack: nat, sp: nat)
    | Failed
    | NeverBuilt

  /** The two program files linked into the kernel. */
  datatype Images = Images(shell: seq<Byte>, fakeAi: seq<Byte>)

  /** The program a path names; none for any other path. */
  function Program(path: string, images: Images): seq<Byte> {
    if path == "shell.bin" then images.shell else if path == "fake_ai.bin" then images.fakeAi else []
  }

  /** Each of the two names gives its own file, and the two are not mixed up whatever they hold. */
  lemma ProgramsByName(path: string, shell: seq<Byte>, fakeAi: seq<Byte>)
    requires shell != [] && fakeAi != [] && shell != fakeAi
    ensures Program(path, Images(shell, fakeAi)) == shell <==> path == ['s', 'h', 'e', 'l', 'l', '.', 'b', 'i', 'n']
    ensures Program(path, Images(shell, fakeAi)) == fakeAi
            <==> path == ['f', 'a', 'k', 'e', '_', 'a', 'i', '.', 'b', 'i', 'n']
    ensures Program(path, Images(shell, fakeAi)) in {shell, fakeAi, []}
  {
    assert |"shell.bin"| == 9 && |"fake_ai.bin"| == 11;
  }

  /** What the new program starts from, on a machine that was in state `s` and is in state `t`: its
      image, a user stack in frames of its own, its argument vector as it will find it, and a kernel stack
      that enters it. */
  ghost predicate Startable(s: Sys, t: Sys, file: seq<Byte>, argv: seq<seq<Byte>>, r: NewProcess) {
    && TableInFile(file) && r.Built? && Extends(s, t)
    && r.entry == EntryPoint(file) && r.entry != 0 && r.entry < WORD && r.esp < WORD
    && ImageReady(t, file, Segments(file)) && OwnStack(s.used, t)
    && Decode(MemoryReader(t), r.esp) == Some(argv) && r.argvAt == r.esp + 4
    && NewFrame(s, t, r.stack) && r.sp == 4096 * r.stack + 4096 - 4 * 14
    && Pushed(t.mem[r.stack], UserFrame(r.entry, r.esp))
  }

  /** The same with a control block of its own that is ready to be linked in. */
  ghost predicate ProcessBuilt(s: Sys, t: Sys, file: seq<Byte>, argv: seq<seq<Byte>>, r: NewProcess) {
    && Startable(s, t, file, argv, r)
    && NewFrame(s, t, r.block) && r.block != r.stack
    && BlockHolds(t.mem[r.block], r.id, r.parent, |argv|, r.argvAt, r.entry, r.sp)
  }

  /** Before the block's fields are set. */
  ghost predicate BlockStillClear(s: Sys, t: Sys, r: NewProcess) {
    r.Built? && NewFrame(s, t, r.block) && r.block != r.stack && Clear(t.mem[r.block], 0, BLOCK_WORDS)
  }

  lemma EntryIsAWord(file: seq<Byte>)
    requires EHDR_SIZE <= |file|
    ensures EntryPoint(file) < WORD
  {
    FromBytesBound(file[24..28]);
    BoundOfWord();
  }

  lemma BlockSizeBounds(argv: seq<seq<Byte>>)
    ensures |argv| <= BlockSize(argv)
  {
  }

  lemma StartableFromParts(t: Sys, u: Sys, v: Sys, x: Sys, file: seq<Byte>,
                           w: Window, argv: seq<seq<Byte>>, start: nat, r: NewProcess)
    requires TableInFile(file) && r.Built? && r.entry == EntryPoint(file) && r.entry != 0
    requires Loaded(t, u, file, Segments(file), |Segments(file)|)
    requires StackReady(u, v, w, argv, start, r.argvAt, r.esp) && AllStrings(argv) && |argv| < WORD
    requires r.entry < WORD && r.esp < WORD
    requires FrameAdded(v, x, r.stack) && Pushed(x.mem[r.stack], UserFrame(r.entry, r.esp))
    requires r.sp == 4096 * r.stack + 4096 - 4 * 14
    ensures Startable(t, x, file, argv, r)
  {
    ImageAndStack(t, u, v, x, r.stack, file, Segments(file), w, argv, start, r.argvAt, r.esp);
    StackExtends(u, v, w, argv, start, r.argvAt, r.esp);
    ExtendsTransitive(t, u, v);
    ReadyIsOwn(u, v, w, argv, start, r.argvAt, r.esp);
    DataStaysData(v, x);
    OwnStackStays(u.used, v, x, t.used);
  }

  lemma BuiltFromStartable(s: Sys, t: Sys, x: Sys, file: seq<Byte>, argv: seq<seq<Byte>>, r: NewProcess)
    requires TableInFile(file) && Startable(t, x, file, argv, r)
    requires FrameAdded(s, t, r.block) && Clear(t.mem[r.block], 0, BLOCK_WORDS)
    ensures Startable(s, x, file, argv, r) && BlockStillClear(s, x, r)
  {
    AddedExtends(s, t, r.block);
    ExtendsTransitive(s, t, x);
    AddedStays(s, t, x, r.block);
    OwnStackStays(t.used, x, x, s.used);
  }

  // ----- setting the fields of the control block -----

  /** Memory in which a frame of the kernel has changed since `s`, and nothing else. */
  ghost predicate OnlyFrame(s: Sys, t: Sys, f: nat) {
    && Inv(s) && f < |s.mem| && NotTable(s, f) && Private(s, f)
    && WrittenOnly(s.mem, t.mem, f) && t.pd == s.pd && t.used == s.used
  }

  lemma OnlyFrameInv(s: Sys, t: Sys, f: nat)
    requires OnlyFrame(s, t, f)
    ensures Inv(t) && Tables(t) == Tables(s) && (forall h: nat :: NotTable(s, h) ==> NotTable(t, h))
    ensures forall p: nat :: p < PAGES ==> SameWalk(s, t, p)
  {
    assert t == s.(mem := s.mem[f := t.mem[f]]);
    WrittenInv(s, f, t.mem[f]);
  }

  /** A program reads what it read before: pages from 8 MB on do not lead to the frame, and the others
      are not open to it. */
  lemma ProgramReadsSame(s: Sys, t: Sys, f: nat, a: nat)
    requires OnlyFrame(s, t, f) && a < WORD
    ensures s.pd < |s.mem| && t.pd < |t.mem| && UserByteAt(t.mem, t.pd, a) == UserByteAt(s.mem, s.pd, a)
  {
    OnlyFrameInv(s, t, f);
    var p := a / 4096;
    assert SameWalk(s, t, p);
    if p < LOW {
      assert IdentityAt(s, p);
      assert !ForUser(Walk(s, p));
    } else {
      assert NotLeading(s, p, f);
    }
  }

  lemma ByteUntouched(s: Sys, t: Sys, f: nat, file: seq<Byte>, g: Segment, k: nat)
    requires OnlyFrame(s, t, f) && ByteLoaded(s, file, g, k)
    ensures ByteLoaded(t, file, g, k)
  {
    OnlyFrameInv(s, t, f);
    if Loadable(g) && GoodSegment(file, g) && k < g.memsz {
      ProgramReadsSame(s, t, f, g.vaddr + k);
      assert SameWalk(s, t, PageOf(g, k));
    }
  }

  lemma ImageUntouched(t: Sys, u: Sys, f: nat, file: seq<Byte>, gs: seq<Segment>)
    requires ImageReady(t, file, gs) && OnlyFrame(t, u, f)
    ensures ImageReady(u, file, gs)
  {
    hide OnlyFrame, ByteLoaded;
    forall j: nat, k: nat
      ensures ByteReady(u, file, gs, j, k)
    {
      assert ByteReady(t, file, gs, j, k);
      if j < |gs| && ByteLoaded(t, file, gs[j], k) { ByteUntouched(t, u, f, file, gs[j], k); }
    }
    forall p: nat
      ensures PageReady(u, gs, p)
    {
      assert PageReady(t, gs, p);
      if UserPage(t, p) { PageUntouched(t, u, f, p); }
    }
  }

  lemma PageUntouched(t: Sys, u: Sys, f: nat, page: nat)
    requires OnlyFrame(t, u, f) && UserPage(t, page)
    ensures UserPage(u, page)
  {
    OnlyFrameInv(t, u, f);
    assert SameWalk(t, u, page);
  }

  lemma ArgsUntouched(t: Sys, u: Sys, f: nat, esp: nat)
    requires OnlyFrame(t, u, f)
    ensures Decode(MemoryReader(u), esp) == Decode(MemoryReader(t), esp)
  {
    forall a: nat
      ensures MemoryReader(t)(a) == MemoryReader(u)(a)
    {
      if a < WORD { ProgramReadsSame(t, u, f, a); }
    }
    SameDecode(MemoryReader(t), MemoryReader(u), esp);
  }

  lemma StackUntouched(base: set<nat>, t: Sys, u: Sys, f: nat)
    requires OwnStack(base, t) && OnlyFrame(t, u, f)
    ensures OwnStack(base, u)
  {
    OnlyFrameInv(t, u, f);
    OwnStackStays(base, t, u, base);
  }

  lemma OnlyFrameMeans(t: Sys, u: Sys, f: nat)
    requires OnlyFrame(t, u, f)
    ensures Inv(t) && f < |t.mem| == |u.mem| && NotTable(t, f) && u == t.(mem := t.mem[f := u.mem[f]])
  {
  }

  /** A new frame of the kernel stays one when it, or another, is written to. */
  lemma NewFrameStays(s: Sys, t: Sys, u: Sys, f: nat, h: nat)
    requires Extends(s, t) && OnlyFrame(t, u, f) && NewFrame(s, t, f) && NewFrame(s, t, h)
    ensures NewFrame(s, u, h) && Extends(s, u) && Tables(u) == Tables(t)
    ensures h != f ==> u.mem[h] == t.mem[h]
  {
    hide Inv, Extends, NotTable, Private, Tables;
    OnlyFrameMeans(t, u, f);
    OnlyFrameInv(t, u, f);
    RefilledExtends(s, t, f, u.mem[f]);
    RefilledPrivate(t, f, u.mem[f], h);
    ExtendsMeans(s, u);
  }

  /** Setting the fields completes the process. */
  lemma FieldsComplete(s: Sys, t: Sys, u: Sys, file: seq<Byte>, argv: seq<seq<Byte>>, r: NewProcess)
    requires r.Built? && Startable(s, t, file, argv, r) && BlockStillClear(s, t, r) && OnlyFrame(t, u, r.block)
    requires r.block < |u.mem| && BlockHolds(u.mem[r.block], r.id, r.parent, |argv|, r.argvAt, r.entry, r.sp)
    ensures ProcessBuilt(s, u, file, argv, r) && Extends(s, u) && Tables(u) == Tables(t)
  {
    hide OnlyFrame, Extends, ImageReady, NewFrame, Tables, Clear, Pushed, BlockHolds, Decode, MemoryReader, OwnStack;
    NewFrameStays(s, t, u, r.block, r.block);
    NewFrameStays(s, t, u, r.block, r.stack);
    NewFramesBound(s, t, u, r.stack);
    ImageUntouched(t, u, r.block, file, Segments(file));
    ArgsUntouched(t, u, r.block, r.esp);
    StackUntouched(s.used, t, u, r.block);
  }

  lemma NewFramesBound(s: Sys, t: Sys, u: Sys, h: nat)
    requires NewFrame(s, t, h) && NewFrame(s, u, h)
    ensures h < |t.mem| && h < |u.mem| && h < LOW
  {
  }

  // ----- what a process needs -----

  /** A spare frame below 8 MB for each frame the process takes: control block, kernel stack, the stack's
      four pages, a page of the image each, and the page tables that are missing. */
  ghost predicate Enough(s: Sys, file: seq<Byte>)
    requires Shape(s) && TableInFile(file)
  {
    6 + FilePages(file) + |(FileTables(file) + StackTables()) - Tables(s)| <= Spare(s)
  }

  lemma NoneSpare(s: Sys, n: nat, dirs: set<nat>)
    requires Shape(s) && LeastFree(s) >= LowTop(s) && n > 0
    ensures Short(s, n, dirs)
  {
    LeastFreeIsLow(s);
  }

  lemma TookOne(s: Sys, t: Sys, f: nat)
    requires FrameAdded(s, t, f)
    ensures Took(s, t, 1, {})
  {
    assert {} - Tables(s) == {} && Tables(s) == Tables(s) + {};
  }

  /** What is short for the image makes the process short. */
  lemma ShortForImage(s: Sys, t: Sys, block: nat, file: seq<Byte>)
    requires TableInFile(file) && FrameAdded(s, t, block) && Short(t, FilePages(file), FileTables(file))
    ensures Shape(s) && !Enough(s, file)
  {
    hide FrameAdded, Tables, FilePages, FileTables, StackTables;
    TookOne(s, t, block);
    ShortEarlier(s, t, 1, {}, FilePages(file), FileTables(file));
    ShortMore(s, 1 + FilePages(file), {} + FileTables(file), 6 + FilePages(file), FileTables(file) + StackTables());
  }

  /** So does what is short for the stacks. */
  lemma ShortForStacks(s: Sys, t: Sys, u: Sys, block: nat, file: seq<Byte>)
    requires TableInFile(file) && FrameAdded(s, t, block) && Took(t, u, FilePages(file), FileTables(file))
    requires Short(u, STACK_PAGES + 1, StackTables())
    ensures Shape(s) && !Enough(s, file)
  {
    hide FrameAdded, Tables, FilePages, FileTables, StackTables;
    TookOne(s, t, block);
    TookInTwoSteps(s, t, u, 1, {}, FilePages(file), FileTables(file));
    ShortEarlier(s, u, 1 + FilePages(file), {} + FileTables(file), STACK_PAGES + 1, StackTables());
    assert {} + FileTables(file) + StackTables() == FileTables(file) + StackTables();
  }

  /** And a process that has come to be had enough. */
  lemma EnoughTaken(s: Sys, t: Sys, u: Sys, v: Sys, block: nat, file: seq<Byte>)
    requires TableInFile(file) && FrameAdded(s, t, block) && Took(t, u, FilePages(file), FileTables(file))
    requires Took(u, v, STACK_PAGES, StackTables()) && Extends(s, v) && LeastFree(v) < LowTop(v)
    ensures Shape(s) && Enough(s, file)
    ensures Took(s, v, 5 + FilePages(file), FileTables(file) + StackTables())
  {
    hide FrameAdded, Tables, FilePages, FileTables, StackTables, Extends;
    TookOne(s, t, block);
    TookInTwoSteps(s, t, u, 1, {}, FilePages(file), FileTables(file));
    TookInTwoSteps(s, u, v, 1 + FilePages(file), {} + FileTables(file), STACK_PAGES, StackTables());
    assert {} + FileTables(file) + StackTables() == FileTables(file) + StackTables();
    SpareShrinksExactly(s, v);
    LeastFreeIsLow(v);
  }

  // ----- the steps of create_user_process -----

  lemma StackTakenMeans(s: Sys, t: Sys, w: Window, argv: seq<seq<Byte>>, start: nat, at: nat, esp: nat)
    requires StackTaken(s, t, w, argv, start, at, esp)
    ensures StackReady(s, t, w, argv, start, at, esp) && Took(s, t, STACK_PAGES, StackTables())
    ensures Extends(s, t) && Shape(s) && Shape(t)
  {
  }

  /** A frame taken when none below 8 MB is free lies above. */
  lemma HighFrame(s: Sys)
    requires Spare(s) == 0
    ensures LeastFree(s) < |s.mem| ==> LeastFree(s) >= LOW
  {
    LeastFreeIsLow(s);
  }

  /** The kernel stack is what can still be short when the user stack stands. */
  lemma ShortOfStack(s: Sys, t: Sys)
    requires Took(s, t, STACK_PAGES, StackTables()) && LeastFree(t) >= LowTop(t)
    ensures Shape(s) && Short(s, STACK_PAGES + 1, StackTables())
  {
    NoneSpare(t, 1, {});
    ShortEarlier(s, t, STACK_PAGES, StackTables(), 1, {});
    assert StackTables() + {} == StackTables();
  }

  /** What the user stack leads to when no store goes astray. */
  ghost predicate StackStands(s: Sys, t: Sys) {
    && Sane(t) && Extends(s, t) && Took(s, t, STACK_PAGES, StackTables())
    && forall p: nat :: AlsoOnStack(s, t, p)
  }

  lemma StackTakenStands(s: Sys, t: Sys, w: Window, argv: seq<seq<Byte>>, start: nat, at: nat, esp: nat)
    requires StackTaken(s, t, w, argv, start, at, esp)
    ensures StackStands(s, t)
  {
    hide StackReady, AlsoOnStack, Took, Sane, StackTables;
    StackTakenMeans(s, t, w, argv, start, at, esp);
    forall p: nat
      ensures AlsoOnStack(s, t, p)
    {
      StackIsMapped(s, t, w, argv, start, at, esp, p);
    }
  }

  /** The user stack with its arguments, then the kernel stack. `stands` says that the user stack was
      finished, in state `v`, without a stray store. */
  method AddStacks(m: Machine, id: nat, parent: nat, block: nat, entry: Word32, argv: seq<seq<Byte>>, ghost t: Sys,
                   ghost file: seq<Byte>)
    returns (status: NewPage, r: NewProcess, ghost v: Sys, ghost stands: bool)
    requires m.Good() && BlockSize(argv) <= 4096 * STACK_PAGES && AllStrings(argv)
    requires TableInFile(file) && entry == EntryPoint(file) && entry != 0
    requires m.intact ==> Loaded(t, m.Abs(), file, Segments(file), |Segments(file)|)
    modifies m`intact, m.mem, m.frames`usedPages, m.frames.memoryMap
    ensures m.Sound() && old(m.frames.Used()) <= m.frames.Used() && (m.intact ==> old(m.intact))
    ensures status != Stop ==> m.Good()
    ensures status == Fresh ==>
              && r.Built? && r.id == id && r.parent == parent && r.block == block && r.entry == entry
              && r.esp < WORD && r.argvAt < WORD && r.sp < WORD && r.stack in m.frames.Used()
              && r.stack !in old(m.frames.Used()) && (m.intact <==> r.stack < LOW)
    ensures status != Fresh ==> r == Failed
    ensures status == Fresh && m.intact ==>
              Startable(t, m.Abs(), file, argv, r) && FrameAdded(v, m.Abs(), r.stack) && StackStands(old(m.Abs()), v)
    ensures status == NoMemory && m.intact ==> Extends(old(m.Abs()), m.Abs())
    ensures old(m.intact) && !(status == Fresh && m.intact) ==> Short(old(m.Abs()), STACK_PAGES + 1, StackTables())
    ensures old(m.intact) && Quiet(old(m.Abs())) && m.mem.Length <= STACK_FIRST_PAGE && status != Stop ==>
              m.intact && Quiet(m.Abs())
    ensures (stands ==> old(m.intact)) && (status == Fresh && m.intact ==> stands)
    ensures stands ==>
              && StackStands(old(m.Abs()), v)
              && TakingEnds(v, m.Abs(), status, if r.Built? then r.stack else 0, m.intact)
              && (r.Built? ==> r.esp < WORD && PushedThrough(v, m.Abs(), r.stack, UserFrame(entry, r.esp)))
    ensures old(m.intact) && StackTables() <= Tables(old(m.Abs())) ==>
              stands || (status == NoMemory && m.intact && m.mem.Length < |old(m.Abs()).used| + STACK_PAGES)
  {
    hide PushedThrough, FrameAdded, Walk, Inv, Tidy, Sane, Spare, Extends, Took, Short, Quiet, Tables, StackTables,
         StackReady, Startable, Loaded, StackStands, TakingEnds, LeastFree;
    ghost var u := m.Abs();
    r := Failed;
    BlockSizeBounds(argv);
    var esp, argvAt, stack, sp;
    ghost var start, w;
    status, esp, argvAt, start, w := PrepareStack(m, argv);
    v, stands := m.Abs(), status == Fresh && m.intact;
    if !stands && old(m.intact) { ShortMore(u, STACK_PAGES, StackTables(), STACK_PAGES + 1, StackTables()); }
    if status != Fresh { return; }
    status, stack, sp := NewKernelStack(m, UserFrame(entry, esp));
    if stands {
      StackTakenMeans(u, v, w, argv, start, argvAt, esp);
      StackTakenStands(u, v, w, argv, start, argvAt, esp);
      TakingMeans(v, m.Abs(), status, stack, m.intact);
      if status != Fresh { TakingOfNone(v, m.Abs(), status, stack, m.intact); }
      if !(status == Fresh && m.intact) { ShortOfStack(u, v); }
    } else {
      HighFrame(v);
    }
    if status != Fresh { return; }
    r := Built(id, parent, block, entry, esp, argvAt, stack, sp);
    if m.intact {
      PushedHere(v, m.Abs(), stack, UserFrame(entry, esp));
      StartableFromParts(t, u, v, m.Abs(), file, w, argv, start, r);
    }
  }

  lemma TakingOfNone(s: Sys, t: Sys, r: NewPage, f: nat, intact: bool)
    requires Shape(s) && TakingEnds(s, t, r, f, intact) && r != Fresh
    ensures TakingEnds(s, t, r, 0, intact)
  {
  }

  /** What the control block and the image lead to when no store goes astray. */
  ghost predicate ImageStands(s: Sys, t: Sys, u: Sys, block: nat, file: seq<Byte>)
    requires TableInFile(file)
  {
    && FrameAdded(s, t, block) && block == LeastFree(s) && Clear(t.mem[block], 0, BLOCK_WORDS)
    && LoadedPart(t, u, file, Segments(file), |Segments(file)|)
  }

  /** Giving back a control block. */
  lemma GivenBack(s: Sys, t: Sys, u: Sys, block: nat)
    requires FrameAdded(s, t, block) && Extends(t, u) && Sane(u)
    ensures Grew(s, Freed(u, block)) && Sane(Freed(u, block))
    ensures Quiet(u) ==> Quiet(Freed(u, block))
  {
    AddedStays(s, t, u, block);
    FreedKeeps(s, u, block);
    FreedTidy(u, block);
    var v := Freed(u, block);
    if Quiet(u) {
      forall p: nat | LOW <= p < |v.mem|
        ensures UnmappedAt(v, p)
      {
        assert UnmappedAt(u, p);
      }
    }
  }

  lemma FreedTidy(t: Sys, f: nat)
    requires Tidy(t) && Private(t, f)
    ensures Tidy(Freed(t, f))
  {
    var u := Freed(t, f);
    forall p: nat | LOW <= p < PAGES
      ensures LeadsToData(u, p)
    {
      assert LeadsToData(t, p) && NotLeading(t, p, f);
      var g := FrameOf(Walk(t, p));
      if Walk(t, p) != 0 {
        forall i: nat | i < 1024
          ensures NotTableAt(u, g, i)
        {
          assert NotTableAt(t, g, i);
        }
      }
    }
    forall p: nat, q: nat | LOW <= p < PAGES && LOW <= q < PAGES
      ensures PagesApart(u, p, q)
    {
      assert PagesApart(t, p, q);
    }
  }

  /** No program image can come of the file. */
  predicate Refused(file: seq<Byte>)
    requires EHDR_SIZE <= |file|
  {
    !Accepted(file) || EntryPoint(file) == 0
  }

  /** Without a spare frame there is not even a control block. */
  lemma NoBlock(s: Sys, file: seq<Byte>)
    requires Sane(s) && file != [] && WellFormed(file)
    ensures LeastFree(s) !in s.used && Grew(s, s)
    ensures LeastFree(s) < LowTop(s) <==> Spare(s) > 0
    ensures Spare(s) == 0 && !Refused(file) ==> !Enough(s, file)
  {
    LeastFreeIsLow(s);
    assert InRange(s, LeastFree(s));
  }

  lemma BlockAdded(s: Sys, t: Sys, block: nat)
    requires FrameAdded(s, t, block)
    ensures Shape(s) && Shape(t) && Tables(t) == Tables(s) && |t.used| == |s.used| + 1 && |t.mem| == |s.mem|
  {
  }

  lemma ImageNeeds(s: Sys, t: Sys, block: nat, file: seq<Byte>)
    requires file != [] && WellFormed(file)
    ensures FrameAdded(s, t, block) && !Refused(file) && Short(t, FilePages(file), FileTables(file)) ==>
              !Enough(s, file)
  {
    if FrameAdded(s, t, block) && !Refused(file) && Short(t, FilePages(file), FileTables(file)) {
      ShortForImage(s, t, block, file);
    }
  }

  /** After a failure the control block is given back. */
  method GiveBack(m: Machine, block: nat, ghost s: Sys, ghost t: Sys, ghost safe: bool)
    requires m.Sound() && block > 0 && s.used <= m.frames.Used() && block !in s.used
    requires safe ==> Sane(m.Abs()) && FrameAdded(s, t, block) && Extends(t, m.Abs())
    modifies m.frames`usedPages, m.frames.memoryMap
    ensures m.Sound() && s.used <= m.frames.Used() && m.frames.Used() == old(m.frames.Used()) - {block}
    ensures safe ==> Sane(m.Abs()) && Grew(s, m.Abs()) && (Quiet(old(m.Abs())) ==> Quiet(m.Abs()))
  {
    hide Inv, Tidy, Sane, Quiet, FrameAdded, Grew, Extends;
    ghost var u := m.Abs();
    m.FreePage(4096 * block);
    if safe { GivenBack(s, t, u, block); }
  }

  /** The control block and the image. A failure gives the control block back. */
  method LoadProgram(m: Machine, file: seq<Byte>) returns (status: NewPage, block: nat, entry: nat, ghost t: Sys)
    requires m.Valid() && file != [] && WellFormed(file)
    modifies m`intact, m.mem, m.frames`usedPages, m.frames.memoryMap
    ensures m.Sound() && old(m.frames.Used()) <= m.frames.Used()
    ensures status == Fresh || (status == NoMemory && m.intact) ==> m.Good()
    ensures status == Fresh ==>
              && !Refused(file) && entry == EntryPoint(file)
              && 0 < block < m.mem.Length && block !in old(m.frames.Used())
    ensures status == Fresh && m.intact ==> ImageStands(old(m.Abs()), t, m.Abs(), block, file)
    ensures status == NoMemory && m.intact ==>
              Grew(old(m.Abs()), m.Abs()) && LeastFree(old(m.Abs())) !in m.Abs().used
    ensures !(status == Fresh && m.intact) && !Refused(file) ==> !Enough(old(m.Abs()), file)
    ensures Quiet(old(m.Abs())) && (Accepted(file) ==> FileAbove(file, m.mem.Length)) && status != Stop ==>
              m.intact && Quiet(m.Abs())
    ensures !Refused(file) && FileTables(file) <= Tables(old(m.Abs())) && Spare(old(m.Abs())) > 0 ==>
              && m.intact && status != Stop
              && (status == NoMemory ==> m.mem.Length <= |old(m.Abs()).used| + FilePages(file))
  {
    hide Loaded, NotTable, Private, EntryPoint, Inv, Tidy, Sane, Spare, Extends, Took, Short, Quiet, Tables,
         LoadedPart, FileAbove, FilePages, FileTables, TakingEnds, FrameAdded, LeastFree, Enough, Grew, SameWalk,
         Walk, FrameOf, WellPlaced, Segments, Clear;
    ghost var s := m.Abs();
    entry := 0;
    status, block := NewControlBlock(m);
    t := m.Abs();
    TakingMeans(s, t, status, block, m.intact);
    NoBlock(s, file);
    if status != Fresh { return; }
    if m.intact { BlockAdded(s, t, block); }
    var load := Load(m, Some(file));
    ghost var u := m.Abs();
    ImageNeeds(s, t, block, file);
    if load == NeverReturned { return Stop, block, 0, t; }
    if load.entry == 0 {
      GiveBack(m, block, s, t, m.intact);
      return NoMemory, block, 0, t;
    }
    entry := load.entry;
  }

  // ----- create_user_process -----

  /** The page that the kernel stack's address names is mapped when the stack is to be filled: it was
      before, or the image or the user stack covers it. */
  ghost predicate KernelStackMapped(s: Sys, file: seq<Byte>, page: nat)
    requires Shape(s) && TableInFile(file) && page < PAGES
  {
    Walk(s, page) != 0 || OnImage(Segments(file), |Segments(file)|, page) || OnStack(page)
  }

  /** The highest word pushed on the kernel stack stands where the stack's own address leads. */
  ghost predicate ReadsSelector(t: Sys, stack: nat) {
    t.pd < |t.mem| && stack < PAGES && ByteAt(t.mem, t.pd, 4096 * stack + 4092) == Some(0x23)
  }

  /** How the building of a process ends when no page table is missing and the control block is below
      8 MB. `k` is the frame of the kernel stack. */
  ghost predicate EndsWithStack(s: Sys, t: Sys, file: seq<Byte>, r: NewProcess, intact: bool)
    requires Shape(s) && TableInFile(file)
  {
    var k := NthFree(s, 5 + FilePages(file));
    if k >= |s.mem| then r == Failed
    else if KernelStackMapped(s, file, k) then
      r.Built? && r.stack == k && (intact <==> k < LOW) && ReadsSelector(t, k)
    else r == NeverBuilt
  }

  lemma SelectorRead(v: Sys, x: Sys, f: nat, intact: bool, words: seq<Word32>)
    requires Sane(v) && TakingEnds(v, x, Fresh, f, intact) && 0 < |words| <= 1024
    requires PushedThrough(v, x, f, words)
    ensures f < PAGES && x.pd < |x.mem| && ByteAt(x.mem, x.pd, 4096 * f + 4092) == Some(words[0] % 0x100)
  {
    var t, g := Taken(v), FrameOf(Walk(v, f));
    TakenSteady(v);
    TranslationOutside(t, g, x.mem[g], f);
    assert PushedAt(x.mem[g], words, 0);
    LoadByteIs(x.mem[g], 1023, 0);
  }

  lemma ImageTook(s: Sys, t: Sys, u: Sys, block: nat, file: seq<Byte>)
    requires TableInFile(file) && ImageStands(s, t, u, block, file)
    ensures Took(t, u, FilePages(file), FileTables(file)) && Extends(t, u)
  {
    LoadedPartMeans(t, u, file, Segments(file), |Segments(file)|);
  }

  /** The frames taken up to the kernel stack are the next free ones. */
  lemma StackIsNth(s: Sys, t: Sys, u: Sys, v: Sys, block: nat, file: seq<Byte>)
    requires TableInFile(file) && ImageStands(s, t, u, block, file) && StackStands(u, v)
    requires FileTables(file) + StackTables() <= Tables(s)
    ensures Extends(s, v) && LeastFree(v) == NthFree(s, 5 + FilePages(file))
  {
    hide FileTables, FilePages, StackTables, LoadedPart, Tables, Extends, Took, NthFree, FrameAdded, AlsoOnStack;
    BlockAdded(s, t, block);
    ImageTook(s, t, u, block, file);
    TookWithTables(t, u, FilePages(file), FileTables(file));
    TookWithTables(u, v, STACK_PAGES, StackTables());
    AddedExtends(s, t, block);
    ExtendsTransitive(s, t, u);
    ExtendsTransitive(s, u, v);
    ExtendsInTurn(s, v);
    NextInTurn(s, v, 5 + FilePages(file));
  }

  lemma ExtendsInTurn(s: Sys, t: Sys)
    requires Extends(s, t)
    ensures InTurn(s, t)
  {
  }

  /** The page of the kernel stack is mapped when the user stack stands exactly when it was before or is
      part of what has been mapped since. */
  lemma MappedSince(s: Sys, t: Sys, u: Sys, v: Sys, block: nat, file: seq<Byte>, page: nat)
    requires TableInFile(file) && page < PAGES
    requires ImageStands(s, t, u, block, file) && StackStands(u, v)
    ensures Shape(s) && Shape(v)
    ensures Walk(v, page) != 0 <==> KernelStackMapped(s, file, page)
  {
    hide Walk, Extends, Took, Inv, Tidy, AlsoOnStack, SameWalk, OnImage;
    LoadedPartMeans(t, u, file, Segments(file), |Segments(file)|);
    ImageIsMapped(t, u, Segments(file), |Segments(file)|, page);
    SameWalkAt(s, t, block, page);
    AlsoOnStackAt(u, v, page);
  }

  lemma SameWalkAt(s: Sys, t: Sys, f: nat, page: nat)
    requires FrameAdded(s, t, f) && page < PAGES
    ensures Shape(s) && Shape(t) && Walk(t, page) == Walk(s, page)
  {
    assert SameWalk(s, t, page);
  }

  lemma AlsoOnStackAt(u: Sys, v: Sys, page: nat)
    requires StackStands(u, v) && page < PAGES
    ensures Shape(u) && Shape(v) && (Walk(v, page) != 0 <==> Walk(u, page) != 0 || OnStack(page))
  {
    assert AlsoOnStack(u, v, page);
  }

  lemma StackOutcome(s: Sys, t: Sys, u: Sys, v: Sys, x: Sys, block: nat, file: seq<Byte>,
                     status: NewPage, stack: nat, intact: bool, words: seq<Word32>)
    requires Shape(s) && Shape(v) && TableInFile(file)
    requires FileTables(file) + StackTables() <= Tables(s)
    requires ImageStands(s, t, u, block, file) && StackStands(u, v) && TakingEnds(v, x, status, stack, intact)
    requires status == Fresh ==> |words| == 14 && words[0] == 0x23 && PushedThrough(v, x, stack, words)
    ensures var k := NthFree(s, 5 + FilePages(file));
            if k >= |s.mem| then status == NoMemory
            else if KernelStackMapped(s, file, k) then
              status == Fresh && stack == k && (intact <==> k < LOW) && ReadsSelector(x, k)
            else status == Stop
  {
    hide FileTables, FilePages, StackTables, LoadedPart, Tables, NthFree, FrameAdded, AlsoOnStack, ImageStands,
         Extends, KernelStackMapped, Landed, DataFrame;
    StackIsNth(s, t, u, v, block, file);
    SameSize(s, v);
    if LeastFree(v) < |v.mem| {
      MappedSince(s, t, u, v, block, file, LeastFree(v));
    }
    if status == Fresh {
      SelectorRead(v, x, stack, intact, words);
    }
  }

  lemma SameSize(s: Sys, t: Sys)
    requires Extends(s, t)
    ensures Shape(s) && Shape(t) && |t.mem| == |s.mem|
  {
  }

  lemma NotEnoughForStacks(s: Sys, t: Sys, u: Sys, block: nat, file: seq<Byte>)
    requires TableInFile(file) && ImageStands(s, t, u, block, file) && Short(u, STACK_PAGES + 1, StackTables())
    ensures Shape(s) && !Enough(s, file)
  {
    ImageTook(s, t, u, block, file);
    ShortForStacks(s, t, u, block, file);
  }

  lemma AddedIsLow(s: Sys, t: Sys, f: nat)
    requires FrameAdded(s, t, f)
    ensures LeastFree(s) < LowTop(s)
  {
  }

  lemma HighNotBuilt(s: Sys, x: Sys, file: seq<Byte>, argv: seq<seq<Byte>>, r: NewProcess)
    requires r.Built? && r.stack >= LOW
    ensures !ProcessBuilt(s, x, file, argv, r)
  {
  }

  lemma ImageStandsMeans(s: Sys, t: Sys, u: Sys, block: nat, file: seq<Byte>)
    requires TableInFile(file) && ImageStands(s, t, u, block, file)
    ensures Loaded(t, u, file, Segments(file), |Segments(file)|) && Sane(u) && Extends(t, u) && FrameAdded(s, t, block)
    ensures Shape(s) && Shape(u) && block == LeastFree(s)
    ensures FileTables(file) + StackTables() <= Tables(s) ==>
              StackTables() <= Tables(u) && |u.used| == |s.used| + 1 + FilePages(file) && |u.mem| == |s.mem|
  {
    hide FrameAdded, Tables, StackTables, Took;
    LoadedPartMeans(t, u, file, Segments(file), |Segments(file)|);
    BlockAdded(s, t, block);
    SameSize(t, u);
    if FileTables(file) + StackTables() <= Tables(s) {
      TookWithTables(t, u, FilePages(file), FileTables(file));
    }
  }

  /** With no frame left for the kernel stack, or not even so many, the process fails. */
  lemma NoneForStack(s: Sys, t: Sys, file: seq<Byte>, intact: bool)
    requires Sane(s) && TableInFile(file)
    ensures |s.mem| <= |s.used| + 5 + FilePages(file) ==> EndsWithStack(s, t, file, Failed, intact)
  {
    UsedInRange(s);
    NthFreeIsNone(s, 5 + FilePages(file));
  }

  /** The end of the process when no table is missing. */
  lemma EndOfProcess(s: Sys, t: Sys, u: Sys, v: Sys, x: Sys, block: nat, file: seq<Byte>, status: NewPage,
                     r: NewProcess, stands: bool, intact: bool, words: seq<Word32>, y: Sys)
    requires r.Built? && ReadsSelector(x, r.stack) ==> ReadsSelector(y, r.stack)
    requires Sane(s) && Shape(u) && TableInFile(file)
    requires FileTables(file) + StackTables() <= Tables(s) && ImageStands(s, t, u, block, file)
    requires if status == Fresh then r.Built? else r == Failed
    requires if stands then StackStands(u, v) && TakingEnds(v, x, status, if r.Built? then r.stack else 0, intact)
             else status == NoMemory && |u.mem| < |u.used| + STACK_PAGES
    requires r.Built? && stands ==>
               |words| == 14 && words[0] == 0x23 && PushedThrough(v, x, r.stack, words)
    ensures EndsWithStack(s, y, file, if status == Stop then NeverBuilt else r, intact)
  {
    hide FileTables, FilePages, StackTables, Tables, TakingEnds, StackStands, ImageStands, Pushed, Walk,
         KernelStackMapped, NthFree;
    if stands {
      StackStandsMeans(u, v);
      StackOutcome(s, t, u, v, x, block, file, status, if r.Built? then r.stack else 0, intact, words);
    } else {
      ImageStandsMeans(s, t, u, block, file);
      NoneForStack(s, y, file, intact);
    }
  }

  lemma StackStandsMeans(s: Sys, t: Sys)
    requires StackStands(s, t)
    ensures Shape(s) && Shape(t) && Sane(t)
  {
  }

  /** A process that has come to be without a stray store. */
  lemma BuiltWhole(s: Sys, t: Sys, u: Sys, v: Sys, x: Sys, block: nat, file: seq<Byte>, argv: seq<seq<Byte>>,
                   r: NewProcess)
    requires TableInFile(file) && ImageStands(s, t, u, block, file) && StackStands(u, v)
    requires r.Built? && Startable(t, x, file, argv, r) && r.block == block && FrameAdded(v, x, r.stack)
    ensures Startable(s, x, file, argv, r) && BlockStillClear(s, x, r) && Enough(s, file) && Extends(s, x)
    ensures Took(s, x, 6 + FilePages(file), FileTables(file) + StackTables()) && InTurn(s, x)
  {
    hide FileTables, FilePages, StackTables, LoadedPart, Tables, Took, FrameAdded, AlsoOnStack, Startable, Clear,
         Enough, BlockStillClear;
    ImageTook(s, t, u, block, file);
    BuiltFromStartable(s, t, x, file, argv, r);
    AddedExtends(s, t, block);
    AddedExtends(v, x, r.stack);
    ExtendsTransitive(s, t, u);
    ExtendsTransitive(s, u, v);
    ExtendsTransitive(s, v, x);
    AddedIsLow(v, x, r.stack);
    EnoughTaken(s, t, u, v, block, file);
    TookOne(v, x, r.stack);
    TookInTwoSteps(s, v, x, 5 + FilePages(file), FileTables(file) + StackTables(), 1, {});
    assert FileTables(file) + StackTables() + {} == FileTables(file) + StackTables();
    ExtendsInTurn(s, x);
  }

  /** When the kernel stack is filled, the control block is still reached by its address, and the words
      have gone elsewhere. */
  lemma BlockReached(s: Sys, t: Sys, v: Sys, x: Sys, block: nat, stack: nat, intact: bool)
    requires FrameAdded(s, t, block) && Extends(t, v) && Sane(v) && TakingEnds(v, x, Fresh, stack, intact)
    ensures Steady(x, block) && Walk(x, block) != 0 && FrameOf(Walk(x, block)) == block && NotTable(x, block)
    ensures stack < PAGES && FrameOf(Walk(x, stack)) != block
  {
    hide Extends, Tables;
    AddedStays(s, t, v, block);
    TakenKeeps(v);
    var w, g := Taken(v), FrameOf(Walk(v, stack));
    assert Kept(v, w, block) && Kept(v, w, g);
    WrittenInv(w, g, x.mem[g]);
    assert x == w.(mem := w.mem[g := x.mem[g]]);
    assert IdentityAt(x, block) && SameWalk(w, x, stack);
    if stack >= LOW { assert NotLeading(v, stack, block); }
  }

  /** Setting the block's fields leaves the kernel stack's page alone. */
  lemma StackPageStays(x: Sys, y: Sys, block: nat, stack: nat)
    requires Steady(x, block) && FrameOf(Walk(x, block)) == block && NotTable(x, block) && block < |x.mem|
    requires WrittenOnly(x.mem, y.mem, block) && y.pd == x.pd && y.used == x.used
    requires stack < PAGES && FrameOf(Walk(x, stack)) != block
    ensures x.pd < |x.mem| && y.pd < |y.mem|
    ensures ByteAt(y.mem, y.pd, 4096 * stack + 4092) == ByteAt(x.mem, x.pd, 4096 * stack + 4092)
  {
    WrittenInv(x, block, y.mem[block]);
    assert SameWalk(x, x.(mem := x.mem[block := y.mem[block]]), stack);
  }

  lemma StandsMeans(s: Sys, t: Sys, u: Sys, v: Sys, x: Sys, block: nat, stack: nat, intact: bool, file: seq<Byte>)
    requires TableInFile(file) && ImageStands(s, t, u, block, file) && StackStands(u, v)
    requires TakingEnds(v, x, Fresh, stack, intact)
    ensures Steady(x, block) && Walk(x, block) != 0 && FrameOf(Walk(x, block)) == block && NotTable(x, block)
    ensures stack < PAGES && FrameOf(Walk(x, stack)) != block
  {
    hide Extends, Took, TakingEnds, FrameAdded, Steady;
    ImageTook(s, t, u, block, file);
    ExtendsTransitive(t, u, v);
    BlockReached(s, t, v, x, block, stack, intact);
  }

  lemma SelectorAfterFields(x: Sys, y: Sys, r: NewProcess, argc: nat)
    requires r.Built? && r.stack < PAGES && Steady(x, r.block) && Walk(x, r.block) != 0
    requires FrameOf(Walk(x, r.block)) == r.block && NotTable(x, r.block) && FrameOf(Walk(x, r.stack)) != r.block
    requires FieldsSet(x, y, r.block, r.id, r.parent, argc, r.argvAt, r.entry, r.sp)
    ensures ReadsSelector(x, r.stack) ==> ReadsSelector(y, r.stack)
  {
    StackPageStays(x, y, r.block, r.stack);
  }

  /** The process is whole when its fields are set. */
  lemma ProcessWhole(s: Sys, x: Sys, y: Sys, file: seq<Byte>, argv: seq<seq<Byte>>, r: NewProcess, n: nat,
                     dirs: set<nat>)
    requires r.Built? && Sane(s) && Startable(s, x, file, argv, r) && BlockStillClear(s, x, r) && Extends(s, x)
    requires FrameOf(Walk(x, r.block)) == r.block
    requires FieldsSet(x, y, r.block, r.id, r.parent, |argv|, r.argvAt, r.entry, r.sp)
    requires Took(s, x, n, dirs) && InTurn(s, x)
    ensures ProcessBuilt(s, y, file, argv, r) && Sane(y) && Grew(s, y) && Took(s, y, n, dirs) && InTurn(s, y)
    ensures Quiet(x) ==> Quiet(y)
  {
    hide Startable, Tidy, BlockHolds, Clear, ProcessBuilt;
    FieldsComplete(s, x, y, file, argv, r);
    TidyStays(s, y);
    SameLeastFree(x, y);
    forall f: nat
      ensures NewBelow(s, y, f)
    {
      assert NewBelow(s, x, f);
    }
    OnlyFrameInv(x, y, r.block);
    SameQuiet(x, y);
  }

  /** What setting the fields has made of the process. */
  lemma ProcessOutcome(s: Sys, t: Sys, u: Sys, v: Sys, x: Sys, y: Sys, block: nat, file: seq<Byte>,
                       argv: seq<seq<Byte>>, r: NewProcess, intact: bool)
    requires Sane(s) && TableInFile(file) && r.Built? && r.block == block && (intact <==> r.stack < LOW)
    requires intact ==>
               && ImageStands(s, t, u, block, file) && StackStands(u, v)
               && Startable(t, x, file, argv, r) && FrameAdded(v, x, r.stack)
               && Shape(x) && block < PAGES && FrameOf(Walk(x, block)) == block
               && FieldsSet(x, y, block, r.id, r.parent, |argv|, r.argvAt, r.entry, r.sp)
    ensures intact <==> ProcessBuilt(s, y, file, argv, r)
    ensures intact ==>
              && Sane(y) && Grew(s, y) && (Quiet(x) ==> Quiet(y)) && Enough(s, file) && InTurn(s, y)
              && Took(s, y, 6 + FilePages(file), FileTables(file) + StackTables())
  {
    hide Sane, Took, Quiet, FilePages, FileTables, StackTables, Enough, Grew, FrameAdded, ProcessBuilt, Startable,
         StackStands, ImageStands, InTurn, BlockStillClear, FieldsSet, Walk;
    if intact {
      BuiltWhole(s, t, u, v, x, block, file, argv, r);
      ProcessWhole(s, x, y, file, argv, r, 6 + FilePages(file), FileTables(file) + StackTables());
    } else {
      HighNotBuilt(s, y, file, argv, r);
    }
  }

  /** Both stacks, then the fields of the control block; a failure gives the control block back. */
  method FinishProcess(m: Machine, id: Word32, parent: Word32, block: nat, entry: Word32, argv: seq<seq<Byte>>,
                       ghost s: Sys, ghost t: Sys, file: seq<Byte>)
    returns (status: NewPage, r: NewProcess)
    requires m.Good() && BlockSize(argv) <= 4096 * STACK_PAGES && AllStrings(argv)
    requires file != [] && WellFormed(file) && !Refused(file) && entry == EntryPoint(file)
    requires Sane(s) && 0 < block < m.mem.Length && block !in s.used && s.used <= m.frames.Used()
    requires m.intact ==> ImageStands(s, t, m.Abs(), block, file)
    modifies m`intact, m.mem, m.frames`usedPages, m.frames.memoryMap
    ensures m.Sound() && s.used <= m.frames.Used() && (m.intact ==> old(m.intact))
    ensures status == Fresh <==> r.Built?
    ensures status != Fresh ==> r == Failed
    ensures r.Built? ==> r.id == id && r.parent == parent
    ensures status != Stop && m.intact ==> m.Good() && Grew(s, m.Abs())
    ensures r.Built? ==> (m.intact <==> ProcessBuilt(s, m.Abs(), file, argv, r))
    ensures r.Built? && m.intact ==>
              && Enough(s, file) && InTurn(s, m.Abs())
              && Took(s, m.Abs(), 6 + FilePages(file), FileTables(file) + StackTables())
    ensures old(m.intact) && !(r.Built? && m.intact) ==> !Enough(s, file)
    ensures status == NoMemory && m.intact ==> LeastFree(s) !in m.Abs().used
    ensures old(m.intact) && Quiet(old(m.Abs())) && m.mem.Length <= STACK_FIRST_PAGE && status != Stop ==>
              m.intact && Quiet(m.Abs())
    ensures old(m.intact) && FileTables(file) + StackTables() <= Tables(s) ==>
              EndsWithStack(s, m.Abs(), file, if status == Stop then NeverBuilt else r, m.intact)
  {
    hide PushedThrough, Inv, Tidy, Sane, Spare, Extends, Took, Short, Quiet, Tables, LoadedPart, FileAbove, FilePages,
         FileTables, StackTables, TakingEnds, FrameAdded, LeastFree, Enough, Grew, Walk, FrameOf, WellPlaced,
         Segments, Clear, ProcessBuilt, Startable, StackStands, EndsWithStack, ImageStands, Loaded, InTurn,
         BlockStillClear, FieldsSet, Steady, ReadsSelector;
    ghost var u := m.Abs();
    if m.intact { ImageStandsMeans(s, t, u, block, file); }
    ghost var v: Sys, stands: bool;
    BlockSizeBounds(argv);
    status, r, v, stands := AddStacks(m, id, parent, block, entry, argv, t, file);
    ghost var x, tables := m.Abs(), FileTables(file) + StackTables();
    if old(m.intact) && !(status == Fresh && m.intact) { NotEnoughForStacks(s, t, u, block, file); }
    if status == Fresh {
      if stands {
        StandsMeans(s, t, u, v, x, block, r.stack, m.intact, file);
      }
      var ok := SetProcessFields(m, block, id, parent, |argv|, r.argvAt, entry, r.sp);
      if !ok { return Stop, Failed; }
      ghost var y := m.Abs();
      if stands { SelectorAfterFields(x, y, r, |argv|); }
      ProcessOutcome(s, t, u, v, x, y, block, file, argv, r, m.intact);
    } else if status == NoMemory {
      if m.intact { ExtendsTransitive(t, u, x); }
      GiveBack(m, block, s, t, m.intact);
    }
    if old(m.intact) && tables <= Tables(s) {
      ghost var words := if r.Built? then UserFrame(entry, r.esp) else [];
      EndOfProcess(s, t, u, v, x, block, file, status, r, stands, m.intact, words, m.Abs());
    }
  }

  /** The program and the stack lie off the virtual pages from 8 MB to the end of memory. */
  ghost predicate FitsBeside(file: seq<Byte>, size: nat) {
    size <= STACK_FIRST_PAGE && (TableInFile(file) && Accepted(file) ==> FileAbove(file, size))
  }

  lemma GrewItself(s: Sys)
    requires Sane(s)
    ensures Grew(s, s)
  {
  }

  /** `create_user_process` up to the ring insertion. A process is returned and no store has gone astray
      exactly when the file is a program and there is enough; exactly then memory holds the process. When no
      page from 8 MB to the end of memory is mapped, by the program neither, every process returned is so. */
  method CreateUserProcess(m: Machine, path: string, argvFromCaller: Option<seq<seq<Byte>>>, images: Images, id: Word32,
                           parent: Word32)
    returns (r: NewProcess)
    requires m.Valid()
    requires var argv := argvFromCaller.UnwrapOr([]); AllStrings(argv) && BlockSize(argv) <= 4096 * STACK_PAGES
    requires var file := Program(path, images); file != [] ==> WellFormed(file)
    modifies m`intact, m.mem, m.frames`usedPages, m.frames.memoryMap
    ensures m.Sound() && old(m.frames.Used()) <= m.frames.Used()
    ensures !r.NeverBuilt? && m.intact ==> m.Valid() && Grew(old(m.Abs()), m.Abs())
    ensures Program(path, images) == [] ==> r == Failed && m.Abs() == old(m.Abs()) && m.intact
    ensures r.Built? ==>
              var file := Program(path, images);
              && file != [] && !Refused(file) && r.id == id && r.parent == parent
              && (m.intact <==> ProcessBuilt(old(m.Abs()), m.Abs(), file, argvFromCaller.UnwrapOr([]), r))
    ensures r.Built? && m.intact ==>
              var file := Program(path, images);
              && Took(old(m.Abs()), m.Abs(), 6 + FilePages(file), FileTables(file) + StackTables())
              && InTurn(old(m.Abs()), m.Abs())
    ensures Program(path, images) != [] && !Refused(Program(path, images)) ==>
              (r.Built? && m.intact <==> Enough(old(m.Abs()), Program(path, images)))
    ensures r == Failed && Program(path, images) != [] && m.intact ==> LeastFree(old(m.Abs())) !in m.Abs().used
    ensures Quiet(old(m.Abs())) && FitsBeside(Program(path, images), m.mem.Length) && !r.NeverBuilt? ==>
              m.intact && Quiet(m.Abs())
    ensures Program(path, images) != [] && !Refused(Program(path, images)) ==>
              var s, file := old(m.Abs()), Program(path, images);
              FileTables(file) + StackTables() <= Tables(s) && Spare(s) > 0 ==>
                EndsWithStack(s, m.Abs(), file, r, m.intact)
  {
    hide Inv, Tidy, Sane, Spare, Extends, Took, Short, Quiet, Tables, LoadedPart, FileAbove, FilePages, FileTables,
         StackTables, TakingEnds, FrameAdded, LeastFree, Enough, Grew, Walk, FrameOf, WellPlaced, Segments, Clear,
         ProcessBuilt, Startable, StackStands, EndsWithStack, ImageStands, Loaded, InTurn;
    ghost var s := m.Abs();
    var file := Program(path, images);
    if file == [] {
      GrewItself(s);
      return Failed;
    }
    EntryIsAWord(file);
    var status, block, entry;
    ghost var t;
    status, block, entry, t := LoadProgram(m, file);
    if status != Fresh {
      if !Refused(file) { NoneForStack(s, m.Abs(), file, m.intact); }
      return if status == NoMemory then Failed else NeverBuilt;
    }
    status, r := FinishProcess(m, id, parent, block, entry, argvFromCaller.UnwrapOr([]), s, t, file);
    if status == Stop { return NeverBuilt; }
  }

  /** A new program can store at every address of its image and of its stack: the byte reads back, and it changes no
      other byte the program can read. */
  lemma ProgramCanWrite(s: Sys, t: Sys, file: seq<Byte>, argv: seq<seq<Byte>>, r: NewProcess, a: nat, b: Byte)
    requires ProcessBuilt(s, t, file, argv, r) && Sane(t) && a < WORD
    requires OnImage(Segments(file), |Segments(file)|, a / 4096) || 0xBFFF_C000 <= a < 0xC000_0000
    ensures Stores(t, a, b)
  {
    hide Sane, Stores, BlockHolds, Decode, Extends;
    var p := a / 4096;
    if OnStack(p) {
      assert OwnStackPage(s.used, t, p);
    } else {
      assert PageReady(t, Segments(file), p);
    }
    ProgramStores(t, a, b, FrameOf(Walk(t, p)));
  }

  /** An image that covers the address of the kernel stack's highest word has lost what it held there. */
  lemma StackInTheImage(s: Sys, t: Sys, file: seq<Byte>, r: NewProcess, intact: bool, j: nat, i: nat)
    requires Shape(s) && TableInFile(file) && EndsWithStack(s, t, file, r, intact) && r.Built?
    requires j < |Segments(file)| && i < Segments(file)[j].memsz
    requires Loadable(Segments(file)[j]) && GoodSegment(file, Segments(file)[j])
    requires Segments(file)[j].vaddr + i == 4096 * r.stack + 4092 && Content(file, Segments(file)[j], i) != 0x23
    ensures !ByteLoaded(t, file, Segments(file)[j], i)
  {
    hide NthFree, FilePages, KernelStackMapped, Segments, Content, UserPage, Walk;
    assert ReadsSelector(t, r.stack);
  }

  // ----- create_task -----

  /** Two new frames: a stack that enters the task, and another one. */
  ghost predicate TaskFrames(s: Sys, t: Sys, entry: Word32, block: nat, stack: nat, sp: nat) {
    && Extends(s, t) && Tables(t) == Tables(s) && block != stack && t.used == s.used + {block, stack}
    && NewFrame(s, t, block)
    && NewFrame(s, t, stack) && Pushed(t.mem[stack], KernelFrame(entry)) && sp == 4096 * stack + 4096 - 4 * 12
  }

  /** The other one is a control block that is ready to be linked in. */
  ghost predicate TaskBuilt(s: Sys, t: Sys, id: nat, entry: Word32, block: nat, stack: nat, sp: nat) {
    TaskFrames(s, t, entry, block, stack, sp) && BlockHolds(t.mem[block], id, 0, 0, 0, entry, sp)
  }

  /** How the building of a task ends when the control block is below 8 MB. */
  ghost predicate TaskEnds(s: Sys, t: Sys, status: NewPage, stack: nat, intact: bool)
    requires Shape(s)
  {
    var k := LeastFree(Taken(s));
    if k >= |s.mem| then status == NoMemory && intact
    else if Walk(s, k) == 0 then status == Stop
    else
      && status == Fresh && stack == k && (intact <==> k < LOW)
      && t.pd < |t.mem| && ByteAt(t.mem, t.pd, 4096 * k + 4092) == Some(0x02)
  }

  lemma SecondFree(s: Sys)
    requires Sane(s) && LeastFree(s) < |s.mem|
    ensures LeastFree(Taken(s)) == |s.mem| ==> |s.mem| == |s.used| + 1
  {
    UsedInRange(s);
    NthFreeIsNone(s, 1);
  }

  /** What taking one more frame shows of how many there were. */
  lemma TwoSpare(s: Sys, t: Sys, f: nat)
    requires FrameAdded(s, t, f) && f == LeastFree(s)
    ensures Spare(s) == Spare(t) + 1 && LeastFree(t) == LeastFree(Taken(s)) <= |t.mem| && |t.mem| == |s.mem|
  {
    SpareTakesOne(s, t, f);
    SameLeastFree(t, Taken(s));
  }

  lemma BothAdded(s: Sys, t: Sys, x: Sys, entry: Word32, block: nat, stack: nat, sp: nat)
    requires FrameAdded(s, t, block) && Clear(t.mem[block], 0, BLOCK_WORDS)
    requires FrameAdded(t, x, stack) && Pushed(x.mem[stack], KernelFrame(entry)) && sp == 4096 * stack + 4096 - 4 * 12
    ensures TaskFrames(s, x, entry, block, stack, sp) && Clear(x.mem[block], 0, BLOCK_WORDS)
  {
    AddedStays(s, t, x, block);
  }

  lemma TaskWhole(s: Sys, x: Sys, y: Sys, id: nat, entry: Word32, block: nat, stack: nat, sp: nat)
    requires Sane(s) && TaskFrames(s, x, entry, block, stack, sp) && Clear(x.mem[block], 0, BLOCK_WORDS)
    requires FrameOf(Walk(x, block)) == block && FieldsSet(x, y, block, id, 0, 0, 0, entry, sp)
    ensures TaskBuilt(s, y, id, entry, block, stack, sp) && Sane(y) && Grew(s, y)
    ensures Quiet(x) ==> Quiet(y)
  {
    hide Tidy, BlockHolds, Clear, Pushed, Private, NotTable, Tables;
    assert y == x.(mem := x.mem[block := y.mem[block]]);
    ExtendsMeans(s, x);
    OnlyFrameInv(x, y, block);
    RefilledExtends(s, x, block, y.mem[block]);
    RefilledPrivate(x, block, y.mem[block], block);
    RefilledPrivate(x, block, y.mem[block], stack);
    TidyStays(s, y);
    SameQuiet(x, y);
  }

  lemma SameQuiet(s: Sys, t: Sys)
    requires Shape(s) && Shape(t) && |t.mem| == |s.mem| && forall p: nat :: p < PAGES ==> SameWalk(s, t, p)
    ensures Quiet(s) ==> Quiet(t)
  {
    if Quiet(s) {
      forall p: nat | LOW <= p < |t.mem|
        ensures UnmappedAt(t, p)
      {
        assert UnmappedAt(s, p) && SameWalk(s, t, p);
      }
    }
  }

  ghost predicate SameByte(s: Sys, t: Sys, stack: nat) {
    && s.pd < |s.mem| && t.pd < |t.mem| && stack < PAGES
    && ByteAt(t.mem, t.pd, 4096 * stack + 4092) == ByteAt(s.mem, s.pd, 4096 * stack + 4092)
  }

  /** The second frame: what it comes to depends on where its address leads. */
  lemma TaskStack(s: Sys, t: Sys, x: Sys, block: nat, status: NewPage, stack: nat, intact: bool, words: seq<Word32>,
                  y: Sys)
    requires FrameAdded(s, t, block) && block == LeastFree(s) && Sane(t) && TakingEnds(t, x, status, stack, intact)
    requires |words| == 12 && words[0] == 0x202
    requires status == Fresh ==> SameByte(x, y, stack)
    requires status == Fresh ==> PushedThrough(t, x, stack, words)
    ensures TaskEnds(s, y, status, stack, intact)
  {
    hide FrameAdded, Pushed, Walk, Inv, Tidy, TakingEnds, ByteAt, LeastFree, Spare, Taken, FrameOf;
    TwoSpare(s, t, block);
    SaneMeans(t);
    TakingCases(t, x, status, stack, intact);
    if LeastFree(t) < |t.mem| {
      SameWalkAt(s, t, block, LeastFree(t));
    }
    if status == Fresh {
      SelectorRead(t, x, stack, intact, words);
    }
  }

  lemma SameByteAfterFields(x: Sys, y: Sys, block: nat, stack: nat, id: nat, entry: nat, sp: nat)
    requires stack < PAGES && Steady(x, block) && Walk(x, block) != 0
    requires FrameOf(Walk(x, block)) == block && NotTable(x, block) && FrameOf(Walk(x, stack)) != block
    requires FieldsSet(x, y, block, id, 0, 0, 0, entry, sp)
    ensures SameByte(x, y, stack)
  {
    StackPageStays(x, y, block, stack);
  }

  lemma HighTask(s: Sys, t: Sys, id: nat, entry: Word32, block: nat, stack: nat, sp: nat)
    requires stack >= LOW
    ensures !TaskBuilt(s, t, id, entry, block, stack, sp)
  {
  }

  /** What setting the fields has made of the two frames. */
  lemma TaskOutcome(s: Sys, t: Sys, x: Sys, y: Sys, id: nat, entry: Word32, block: nat, stack: nat, sp: nat,
                    intact: bool)
    requires Sane(s) && FrameAdded(s, t, block) && Clear(t.mem[block], 0, BLOCK_WORDS)
    requires Sane(t) && TakingEnds(t, x, Fresh, stack, intact) && sp == 4096 * stack + 4096 - 4 * 12
    requires PushedThrough(t, x, stack, KernelFrame(entry))
    requires Steady(x, block) && FrameOf(Walk(x, block)) == block && FieldsSet(x, y, block, id, 0, 0, 0, entry, sp)
    ensures intact <==> TaskBuilt(s, y, id, entry, block, stack, sp)
    ensures intact ==> Sane(y) && Grew(s, y) && (Quiet(x) ==> Quiet(y))
  {
    hide Sane, FrameAdded, Clear, TakingEnds, PushedThrough, FieldsSet, TaskBuilt, TaskFrames, Grew, Quiet, Steady,
         Walk;
    TakingMeans(t, x, Fresh, stack, intact);
    if intact {
      PushedHere(t, x, stack, KernelFrame(entry));
      BothAdded(s, t, x, entry, block, stack, sp);
      TaskWhole(s, x, y, id, entry, block, stack, sp);
    } else {
      HighTask(s, y, id, entry, block, stack, sp);
    }
  }

  lemma NoTask(s: Sys)
    requires Sane(s)
    ensures Grew(s, s) && (LeastFree(s) < LowTop(s) <==> Spare(s) > 0)
    ensures LeastFree(s) == |s.mem| ==> |s.used| == |s.mem|
    ensures LeastFree(s) < |s.mem| && LeastFree(Taken(s)) == |s.mem| ==> |s.mem| == |s.used| + 1
  {
    GrewItself(s);
    LeastFreeIsLow(s);
    UsedInRange(s);
    if LeastFree(s) < |s.mem| { SecondFree(s); }
  }

  /** `create_task` up to the ring insertion: two frames or none. Sound exactly when both are below 8 MB. */
  method CreateTask(m: Machine, entryPoint: Word32, id: Word32)
    returns (status: NewPage, block: nat, stack: nat, sp: nat)
    requires m.Valid()
    modifies m`intact, m.mem, m.frames`usedPages, m.frames.memoryMap
    ensures m.Sound() && old(m.frames.Used()) <= m.frames.Used()
    ensures status != Stop && m.intact ==> m.Valid() && Grew(old(m.Abs()), m.Abs())
    ensures status == Fresh ==> (m.intact <==> TaskBuilt(old(m.Abs()), m.Abs(), id, entryPoint, block, stack, sp))
    ensures status == Fresh && m.intact <==> Spare(old(m.Abs())) >= 2
    ensures status == NoMemory ==>
              m.Abs().used == old(m.Abs()).used && m.mem.Length < |old(m.Abs()).used| + 2
    ensures Quiet(old(m.Abs())) && status != Stop ==> m.intact && Quiet(m.Abs())
    ensures Spare(old(m.Abs())) > 0 ==> TaskEnds(old(m.Abs()), m.Abs(), status, stack, m.intact)
  {
    hide Inv, Tidy, Sane, Spare, Extends, Quiet, Tables, TakingEnds, FrameAdded, LeastFree, Grew, Walk, FrameOf,
         Clear, PushedThrough, TaskBuilt, TaskEnds, Steady, FieldsSet, SameByte;
    ghost var s := m.Abs();
    stack, sp := 0, 0;
    status, block := NewControlBlock(m);
    ghost var t := m.Abs();
    TakingMeans(s, t, status, block, m.intact);
    NoTask(s);
    if status != Fresh { return; }
    ghost var safe := m.intact;
    SameLeastFree(t, Taken(s));
    if safe { TwoSpare(s, t, block); } else { HighFrame(t); }
    status, stack, sp := NewKernelStack(m, KernelFrame(entryPoint));
    ghost var x := m.Abs();
    if safe {
      TakingMeans(t, x, status, stack, m.intact);
      LeastFreeIsLow(t);
    }
    if status == NoMemory {
      if safe { SaneExtendsItself(t); }
      GiveBack(m, block, s, t, safe);
    } else if status == Fresh {
      if safe {
        SaneExtendsItself(t);
        BlockReached(s, t, t, x, block, stack, m.intact);
      }
      var ok := SetTaskFields(m, block, id, entryPoint, sp);
      if !ok { return Stop, block, stack, sp; }
      ghost var y := m.Abs();
      if safe {
        SameByteAfterFields(x, y, block, stack, id, entryPoint, sp);
        TaskOutcome(s, t, x, y, id, entryPoint, block, stack, sp, m.intact);
      } else {
        HighTask(s, y, id, entryPoint, block, stack, sp);
      }
    }
    if safe { TaskStack(s, t, x, block, status, stack, m.intact, KernelFrame(entryPoint), m.Abs()); }
  }
}
