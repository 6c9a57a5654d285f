/** A run in which the kernel overwrites the image it has just loaded: a machine of 16 MB, `tasking_init`,
    a program of one page, then one of 1020 pages, both linked at 8 MB. The functions are called directly,
    one after the other; `kmain` divides by zero before `tasking_init` (kernel/kernel.c:109-112). */
module StrayStores {
  import opened Words
  import opened Options
  import opened Paging
  import opened Bytes
  import opened UserMemory
  import opened Vmm
  import opened KernelFrames
  import opened UserStack
  import opened Elf
  import opened Process
  import Pmm

  const BASE: nat := 0x80_0000           // 8 MB

  // ----- a file of words -----

  function FromWords(ws: seq<Word32>): (file: seq<Byte>)
    ensures |file| == 4 * |ws|
    decreases |ws|
  {
    if ws == [] then [] else FromWords(ws[..|ws| - 1]) + ToBytes(ws[|ws| - 1], 4)
  }

  lemma {:induction false} WordStands(ws: seq<Word32>, k: nat)
    requires k < |ws|
    ensures FromWords(ws)[4 * k..4 * k + 4] == ToBytes(ws[k], 4)
    decreases |ws|
  {
    if k < |ws| - 1 {
      WordStands(ws[..|ws| - 1], k);
    }
  }

  lemma WordRead(ws: seq<Word32>, k: nat)
    requires k < |ws|
    ensures Word(FromWords(ws), 4 * k) == ws[k]
  {
    WordStands(ws, k);
    BoundOfWord();
    FromBytesInverts(ws[k], 4);
  }

  lemma ByteRead(ws: seq<Word32>, k: nat, i: nat)
    requires k < |ws| && i < 4
    ensures FromWords(ws)[4 * k + i] == ByteOf(ws[k], i)
  {
    WordStands(ws, k);
    ToBytesAre(ws[k], 4, i);
    assert FromWords(ws)[4 * k..4 * k + 4][i] == FromWords(ws)[4 * k + i];
  }

  lemma HalfRead(file: seq<Byte>, at: nat)
    requires at + 2 <= |file|
    ensures Half(file, at) == file[at] as int + 0x100 * (file[at + 1] as int)
  {
    var bs := file[at..at + 2];
    assert FromBytes(bs) == bs[0] as int + 0x100 * FromBytes(bs[1..]);
    assert FromBytes(bs[1..]) == bs[1] as int + 0x100 * FromBytes(bs[1..][1..]);
  }

  lemma HalvesRead(ws: seq<Word32>, k: nat, w: nat)
    requires k < |ws| && w == ws[k]
    ensures Half(FromWords(ws), 4 * k) == w % 0x100 + 0x100 * (w / 0x100 % 0x100)
    ensures Half(FromWords(ws), 4 * k + 2) == w / 0x100 / 0x100 % 0x100 + 0x100 * (w / 0x100 / 0x100 / 0x100 % 0x100)
  {
    hide FromWords, FromBytes;
    ByteRead(ws, k, 0);
    ByteRead(ws, k, 1);
    ByteRead(ws, k, 2);
    ByteRead(ws, k, 3);
    BytesOf(w);
    HalfRead(FromWords(ws), 4 * k);
    HalfRead(FromWords(ws), 4 * k + 2);
  }

  lemma BytesOf(w: nat)
    ensures ByteOf(w, 0) == w % 0x100 && ByteOf(w, 1) == w / 0x100 % 0x100
    ensures ByteOf(w, 2) == w / 0x100 / 0x100 % 0x100 && ByteOf(w, 3) == w / 0x100 / 0x100 / 0x100 % 0x100
  {
    assert ByteOf(w, 2) == ByteOf(w / 0x100, 1) && ByteOf(w / 0x100 / 0x100, 1) == w / 0x100 / 0x100 / 0x100 % 0x100;
    assert ByteOf(w, 3) == ByteOf(w / 0x100, 2) == ByteOf(w / 0x100 / 0x100, 1);
  }

  /** An executable with one loadable segment of `pages` pages of zeros at 8 MB, entered at its start. */
  function Executable(pages: nat): (ws: seq<Word32>)
    requires pages <= 1024
    ensures |ws| == 21
  {
    [0x464C_457F, 0x0001_0101, 0, 0, 0x0003_0002, 1, BASE, EHDR_SIZE, 0, 0, 0x0020_0034, 1, 0,
     PT_LOAD, 84, BASE, BASE, 0, 4096 * pages, 7, 4096]
  }

  function Zeros(pages: nat): Segment {
    Segment(PT_LOAD, 84, BASE, 0, 4096 * pages)
  }

  lemma ExecutableAccepted(pages: nat)
    requires pages <= 1024
    ensures Accepted(FromWords(Executable(pages)))
  {
    var ws := Executable(pages);
    hide FromWords, Half;
    ByteRead(ws, 0, 0);
    ByteRead(ws, 0, 1);
    ByteRead(ws, 0, 2);
    ByteRead(ws, 0, 3);
    ByteRead(ws, 1, 0);
    ByteRead(ws, 1, 1);
    BytesOf(0x464C_457F);
    BytesOf(0x0001_0101);
    HalvesRead(ws, 4, 0x0003_0002);
  }

  /** The loader finds in it what was put there. */
  lemma ExecutableRead(pages: nat, file: seq<Byte>)
    requires 0 < pages <= 1024 && file == FromWords(Executable(pages))
    ensures WellFormed(file) && !Refused(file) && TableInFile(file)
    ensures Segments(file) == [Zeros(pages)] && FilePages(file) == pages && FileTables(file) == RangeTables(LOW, pages)
  {
    hide FromWords, Word, Half, RangeTables, Accepted, PagesOf, TablesOf, WellPlaced;
    var ws := Executable(pages);
    ExecutableAccepted(pages);
    WordRead(ws, 6);
    WordRead(ws, 7);
    HalvesRead(ws, 11, 1);
    WordRead(ws, 13);
    WordRead(ws, 14);
    WordRead(ws, 15);
    WordRead(ws, 17);
    WordRead(ws, 18);
    assert Segments(file) == [Zeros(pages)];
    OneSegment(file, pages);
  }

  lemma OneSegment(file: seq<Byte>, pages: nat)
    requires 0 < pages <= 1024 && |file| == 84
    ensures var gs := [Zeros(pages)];
            WellPlaced(file, gs) && PagesOf(gs, 1) == pages && TablesOf(gs, 1) == RangeTables(LOW, pages)
  {
    var gs := [Zeros(pages)];
    hide RangeTables;
    assert GoodSegment(file, gs[0]) && FirstPage(gs[0]) == LOW && PageSpan(gs[0]) == pages;
    assert PagesOf(gs, 0) == 0 && TablesOf(gs, 0) == {};
    assert TablesOf(gs, 1) == TablesOf(gs, 0) + SegmentTables(gs[0]);
  }

  lemma {:induction false} OneTable(first: nat, n: nat, i: nat)
    requires 0 < n && 1024 * i <= first && first + n <= 1024 * (i + 1)
    ensures RangeTables(first, n) == {i}
    decreases n
  {
    if n > 1 {
      OneTable(first, n - 1, i);
    }
  }

  // ----- frames taken in turn -----

  lemma {:induction false} NextOfFirst(s: Sys, n: nat, k: nat)
    requires s.used == Pmm.Frames(n) && n + k <= |s.mem|
    ensures NthFree(s, k) == n + k
    decreases k
  {
    hide LeastFree;
    FirstsUsed(s, n);
    if k > 0 {
      assert Taken(s).used == Pmm.Frames(n + 1);
      NextOfFirst(Taken(s), n + 1, k - 1);
    }
  }

  lemma FirstsUsed(s: Sys, n: nat)
    requires s.used == Pmm.Frames(n) && n <= |s.mem|
    ensures LeastFree(s) == n
  {
    assert n !in Pmm.Frames(n);
  }

  /** Taking frames in turn from the first ones leaves the first ones. */
  lemma FirstsInTurn(s: Sys, t: Sys, n: nat, k: nat)
    requires s.used == Pmm.Frames(n) && n + k <= |s.mem| && InTurn(s, t) && |t.used| == |s.used| + k
    ensures t.used == Pmm.Frames(n + k)
  {
    NextOfFirst(s, n, k);
    NextInTurn(s, t, k);
    forall f: nat
      ensures f in t.used <==> f < n + k
    {
      assert NewBelow(s, t, f);
    }
  }

  // ----- the run -----

  /** What the second program meets: frames 0 to 1033 in use, the tables for 8 MB and the stack there. */
  ghost predicate SecondStart(s: Sys) {
    Shape(s) && |s.mem| == 4096 && s.used == Pmm.Frames(1034) && {2, 767} <= Tables(s)
  }

  /** Its kernel stack gets frame 2059, whose address is in its image. */
  lemma SecondEnds(s: Sys, t: Sys, file: seq<Byte>, r: NewProcess, intact: bool)
    requires SecondStart(s) && file == FromWords(Executable(1020)) && TableInFile(file) && FilePages(file) == 1020
    requires Segments(file) == [Zeros(1020)] && EndsWithStack(s, t, file, r, intact)
    ensures r.Built? && r.stack == 2059 && !intact && ReadsSelector(t, 2059)
    ensures !ByteLoaded(t, file, Zeros(1020), 0xBFFC)
  {
    hide FromWords, Executable, Segments, FilePages, NthFree, ByteLoaded, ReadsSelector, KernelStackMapped,
         Pmm.Frames;
    NextOfFirst(s, 1034, 1025);
    StackPageInImage(s, file);
    StackInTheImage(s, t, file, r, intact, 0, 0xBFFC);
  }

  lemma StackPageInImage(s: Sys, file: seq<Byte>)
    requires Shape(s) && TableInFile(file) && Segments(file) == [Zeros(1020)]
    ensures KernelStackMapped(s, file, 2059)
  {
    assert OnSegment(Segments(file), 1, 2059, 0);
  }

  /** After power-on with 16 MB and `tasking_init`. */
  ghost predicate Started(s: Sys) {
    Shape(s) && |s.mem| == 4096 && s.used == Pmm.Frames(1025) && Tables(s) == {0, 1}
  }

  /** The boot task's control block is frame 1024. */
  lemma BootTaskStarts(s: Sys, t: Sys, status: NewPage, f: nat, intact: bool)
    requires Sane(s) && |s.mem| == 4096 && s.used == Pmm.Frames(1024) && Tables(s) == {0, 1}
    requires TakingEnds(s, t, status, f, intact)
    ensures intact && status == Fresh && Started(t)
  {
    hide Pmm.Frames, Tables, TakingEnds, Inv, Tidy;
    FirstsUsed(s, 1024);
    TakingMeans(s, t, status, f, intact);
    assert t.used == Pmm.Frames(1025);
  }

  lemma FirstTables(s: Sys, file: seq<Byte>)
    requires Started(s) && TableInFile(file) && FileTables(file) == RangeTables(LOW, 1)
    ensures FileTables(file) + StackTables() == {2, 767} && |(FileTables(file) + StackTables()) - Tables(s)| == 2
  {
    hide RangeTables, Tables, Pmm.Frames;
    OneTable(LOW, 1, 2);
    OneTable(STACK_FIRST_PAGE, STACK_PAGES, 767);
    assert {2, 767} - {0, 1} == {2, 767};
  }

  /** The first program fits below 8 MB: one page, four stack pages, two control frames, two tables. */
  lemma FirstFits(s: Sys, file: seq<Byte>)
    requires Started(s) && TableInFile(file) && FilePages(file) == 1 && FileTables(file) == RangeTables(LOW, 1)
    ensures Enough(s, file)
  {
    hide FileTables, FilePages, StackTables, Tables, Spare, Pmm.Frames;
    FirstTables(s, file);
    SpareOf(s, 1025);
  }

  lemma SecondTables(s: Sys, file: seq<Byte>)
    requires SecondStart(s) && TableInFile(file) && FileTables(file) == RangeTables(LOW, 1020)
    ensures FileTables(file) + StackTables() <= Tables(s)
  {
    hide RangeTables, Tables, Pmm.Frames;
    OneTable(LOW, 1020, 2);
    OneTable(STACK_FIRST_PAGE, STACK_PAGES, 767);
  }

  /** Where it leaves the machine. */
  lemma FirstLeaves(s: Sys, file: seq<Byte>, t: Sys)
    requires Started(s) && TableInFile(file) && FilePages(file) == 1 && FileTables(file) == RangeTables(LOW, 1)
    requires InTurn(s, t) && Took(s, t, 6 + FilePages(file), FileTables(file) + StackTables())
    ensures SecondStart(t) && Spare(t) > 0
  {
    hide FileTables, FilePages, StackTables, Tables, Spare, InTurn, Pmm.Frames;
    FirstTables(s, file);
    FirstsInTurn(s, t, 1025, 9);
    SpareOf(t, 1034);
  }

  lemma SpareOf(s: Sys, n: nat)
    requires s.used == Pmm.Frames(n) && n <= LOW <= |s.mem|
    ensures Spare(s) == LOW - n
  {
    hide Pmm.Frames;
    assert Pmm.Frames(LOW) == SpareFrames(s) + s.used;
  }

  method PowerOn() returns (m: Machine)
    ensures fresh(m) && fresh(m.mem) && fresh(m.frames) && fresh(m.frames.memoryMap) && m.Valid() && Started(m.Abs())
  {
    hide Sane, Tables, TakingEnds, BootBlockHolds, UnmappedAt, Pmm.Frames, Spare, Started;
    m := new Machine(0x100_0000, 272, 273, 274);
    ghost var start := m.Abs();
    var status, boot := NewBootBlock(m);
    BootTaskStarts(start, m.Abs(), status, boot, m.intact);
  }

  /** The run. The second program is given a PID, but its kernel stack has been written into its image. */
  method Run() returns (m: Machine, r: NewProcess)
    ensures m.Sound() && r.Built? && r.stack == 2059 && !m.intact
    ensures ReadsSelector(m.Abs(), 2059)
    ensures !ByteLoaded(m.Abs(), FromWords(Executable(1020)), Zeros(1020), 0xBFFC)
  {
    hide FromWords, Executable, Segments, FilePages, FileTables, StackTables, WellFormed, Refused, EndsWithStack,
         Enough, SecondStart, Started, Took, InTurn, Sane, Tables, Spare, TakingEnds, ProcessBuilt, ReadsSelector,
         ByteLoaded, Zeros, RangeTables, Pmm.Frames, UnmappedAt, Quiet, FitsBeside, Grew;
    m := PowerOn();
    var small, large := FromWords(Executable(1)), FromWords(Executable(1020));
    ExecutableRead(1, small);
    ExecutableRead(1020, large);
    ghost var s := m.Abs();
    FirstFits(s, small);
    var images := Images(small, large);
    r := CreateUserProcess(m, "shell.bin", None, images, 2, 0x40_0000);
    ghost var t := m.Abs();
    FirstLeaves(s, small, t);
    SecondTables(t, large);
    r := CreateUserProcess(m, "fake_ai.bin", None, images, 3, 0x40_0000);
    SecondEnds(t, m.Abs(), large, r, m.intact);
  }
}
