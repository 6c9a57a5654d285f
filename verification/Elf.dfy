/** The ELF loader (TIS ELF Specification 1.2, Book I, chapter 2: program header, PT_LOAD). */
module Elf {
  import opened Words
  import opened Options
  import opened Paging
  import opened Bytes
  import opened Windows
  import opened UserMemory
  import opened Vmm

  // ----- the file -----

  const EHDR_SIZE: nat := 52
  const PHDR_SIZE: nat := 32
  const PT_LOAD: nat := 1
  const LAST_PAGE: nat := 0xFFFF_F000

  function Half(file: seq<Byte>, at: nat): nat
    requires at + 2 <= |file|
  {
    FromBytes(file[at..at + 2])
  }

  function Word(file: seq<Byte>, at: nat): nat
    requires at + 4 <= |file|
  {
    FromBytes(file[at..at + 4])
  }

  /** The identification, type and machine the loader accepts. */
  predicate Accepted(file: seq<Byte>)
    requires EHDR_SIZE <= |file|
  {
    && file[0] == 0x7F && file[1] == 0x45 && file[2] == 0x4C && file[3] == 0x46
    && file[4] == 1                // ELFCLASS32
    && file[5] == 1                // ELFDATA2LSB
    && Half(file, 16) == 2         // ET_EXEC
    && Half(file, 18) == 3         // EM_386
  }

  function EntryPoint(file: seq<Byte>): nat
    requires EHDR_SIZE <= |file|
  {
    Word(file, 24)
  }

  function HeaderCount(file: seq<Byte>): nat
    requires EHDR_SIZE <= |file|
  {
    Half(file, 44)
  }

  datatype Segment = Segment(kind: nat, offset: nat, vaddr: nat, filesz: nat, memsz: nat)

  function SegmentAt(file: seq<Byte>, i: nat): Segment
    requires EHDR_SIZE <= |file| && Word(file, 28) + PHDR_SIZE * (i + 1) <= |file|
  {
    var at := Word(file, 28) + PHDR_SIZE * i;
    Segment(Word(file, at), Word(file, at + 4), Word(file, at + 8), Word(file, at + 16), Word(file, at + 20))
  }

  /** The program header table lies in the file. */
  predicate TableInFile(file: seq<Byte>) {
    EHDR_SIZE <= |file| && Word(file, 28) + PHDR_SIZE * HeaderCount(file) <= |file|
  }

  function Segments(file: seq<Byte>): (gs: seq<Segment>)
    requires TableInFile(file)
    ensures |gs| == HeaderCount(file)
  {
    seq(HeaderCount(file), i requires 0 <= i < HeaderCount(file) => SegmentAt(file, i))
  }

  predicate Loadable(g: Segment) {
    g.kind == PT_LOAD && g.memsz > 0
  }

  function FirstPage(g: Segment): nat {
    g.vaddr / 4096
  }

  /** How many pages the segment touches. */
  function PageSpan(g: Segment): nat {
    if g.memsz == 0 then 0 else (g.vaddr + g.memsz - 1) / 4096 - g.vaddr / 4096 + 1
  }

  predicate OnPage(g: Segment, page: nat) {
    FirstPage(g) <= page < FirstPage(g) + PageSpan(g)
  }

  /** What the loader takes on trust from a segment: its bytes are in the file, the file part is no
      longer than the memory part, it lies above the identity window and below the last page. */
  predicate GoodSegment(file: seq<Byte>, g: Segment) {
    Loadable(g) ==>
      g.offset + g.filesz <= |file| && g.filesz <= g.memsz &&
      LOW * 4096 <= g.vaddr && g.vaddr + g.memsz <= LAST_PAGE
  }

  predicate GoodAt(file: seq<Byte>, gs: seq<Segment>, i: nat) {
    i < |gs| ==> GoodSegment(file, gs[i])
  }

  ghost predicate WellPlaced(file: seq<Byte>, gs: seq<Segment>) {
    forall i: nat :: GoodAt(file, gs, i)
  }

  /** What the loader takes on trust from a file: a whole header, and if that is accepted a header
      table in the file that describes well-placed segments. They may share pages, or overlap. */
  ghost predicate WellFormed(file: seq<Byte>) {
    EHDR_SIZE <= |file| && (Accepted(file) ==> TableInFile(file) && WellPlaced(file, Segments(file)))
  }

  /** The byte the segment puts at its `k`-th address: from the file, then zeros. */
  function Content(file: seq<Byte>, g: Segment, k: nat): Byte
    requires k < g.memsz && g.offset + g.filesz <= |file|
  {
    if k < g.filesz then file[g.offset + k] else 0
  }

  // ----- what a loaded image is -----

  /** A page the process can reach, whose frame is in use and is no page table. */
  ghost predicate UserPage(s: Sys, page: nat) {
    Shape(s) && page < PAGES && DataPage({}, s, page, FrameOf(Walk(s, page)))
  }

  /** The page of the segment's `k`-th address. */
  function PageOf(g: Segment, k: nat): nat {
    (g.vaddr + k) / 4096
  }

  /** The pages a segment gets are those its addresses lie on. */
  lemma PagesAreTouched(g: Segment, page: nat)
    ensures OnPage(g, page) <==> exists k: nat :: k < g.memsz && PageOf(g, k) == page
  {
    if OnPage(g, page) {
      var k: nat := if page == FirstPage(g) then 0 else page * 4096 - g.vaddr;
      assert k < g.memsz && PageOf(g, k) == page;
    }
  }

  /** Reading address `k` of the segment in user mode gives its content. */
  ghost predicate ByteLoaded(s: Sys, file: seq<Byte>, g: Segment, k: nat) {
    Loadable(g) && GoodSegment(file, g) && k < g.memsz ==>
      UserPage(s, PageOf(g, k)) && UserByteAt(s.mem, s.pd, g.vaddr + k) == Some(Content(file, g, k))
  }

  ghost predicate SegmentLoaded(s: Sys, file: seq<Byte>, g: Segment) {
    forall k: nat :: ByteLoaded(s, file, g, k)
  }

  lemma SameUserByte(s: Sys, t: Sys, page: nat, f: nat, a: nat)
    requires Grew(s, t) && DataPage({}, s, page, f) && DataPage({}, t, page, f) && t.mem[f] == s.mem[f]
    requires page == a / 4096 && SameWalk(s, t, page) && UserByteAt(s.mem, s.pd, a).Some?
    ensures UserByteAt(t.mem, t.pd, a) == UserByteAt(s.mem, s.pd, a)
  {
    UserReads({}, t, page, f, a);
  }

  /** A loaded byte stays loaded while the translation of its page stays. */
  lemma ByteKept(s: Sys, t: Sys, file: seq<Byte>, g: Segment, k: nat)
    requires Grew(s, t) && ByteLoaded(s, file, g, k)
    requires var p := PageOf(g, k); p < PAGES && k < g.memsz ==> SameWalk(s, t, p)
    ensures ByteLoaded(t, file, g, k)
  {
    if Loadable(g) && GoodSegment(file, g) && k < g.memsz {
      var p := PageOf(g, k);
      DataPageKept({}, s, t, p, FrameOf(Walk(s, p)));
      SameUserByte(s, t, p, FrameOf(Walk(s, p)), g.vaddr + k);
    }
  }

  // ----- placing one segment -----

  function FilePart(file: seq<Byte>, g: Segment): (part: seq<Byte>)
    requires g.offset + g.filesz <= |file|
    ensures |part| == g.filesz
  {
    file[g.offset..g.offset + g.filesz]
  }

  function Rest(g: Segment): (zeros: seq<Byte>)
    requires g.filesz <= g.memsz
    ensures |zeros| == g.memsz - g.filesz
  {
    Repeat(0, g.memsz - g.filesz)
  }

  /** Two blocks written one after the other. */
  function TwoBlocks(w: Window, mem: seq<Frame>, a: nat, x: seq<Byte>, n: nat, b: nat, y: seq<Byte>, k: nat): seq<Frame>
    requires n <= |x| && k <= |y| && Covers(w, a, n) && Covers(w, b, k)
  {
    PutAll(w, PutAll(w, mem, a, x, n), b, y, k)
  }

  lemma TwoBlocksThenGet(w: Window, mem: seq<Frame>, a: nat, x: seq<Byte>, n: nat, b: nat, y: seq<Byte>, k: nat, c: nat)
    requires n <= |x| && k <= |y| && Covers(w, a, n) && Covers(w, b, k)
    requires Covers(w, c, 1) && Distinct(w.frames, |mem|) && b == a + n && a <= c < b + k
    ensures Get(w, TwoBlocks(w, mem, a, x, n, b, y, k), c) == if c < b then x[c - a] else y[c - b]
  {
    PutAllThenGet(w, mem, a, x, n, c);
    PutAllThenGet(w, PutAll(w, mem, a, x, n), b, y, k, c);
  }

  /** Both go through a backed window without a fault. */
  lemma TwoStores(base: set<nat>, t: Sys, w: Window, a: nat, x: seq<Byte>, n: nat, b: nat, y: seq<Byte>, k: nat,
                  m1: seq<Frame>, m2: seq<Frame>)
    requires Inv(t) && Backed(base, t, w) && n <= |x| && k <= |y| && Covers(w, a, n) && Covers(w, b, k)
    requires m1 == PutAll(w, t.mem, a, x, n) && m2 == TwoBlocks(w, t.mem, a, x, n, b, y, k)
    ensures a + n <= WORD && b + k <= WORD
    ensures StoreAll(t.mem, t.pd, a, x, n) == Some(m1) && StoreAll(m1, t.pd, b, y, k) == Some(m2)
    ensures (n == 0 ==> m1 == t.mem) && (k == 0 ==> m2 == m1)
    ensures OnlyWindow(t.mem, w, m2)
  {
    StoreAllIsPutAll(base, t, w, t.mem, a, x, n);
    PutAllOnlyWindow(t.mem, w, t.mem, a, x, n);
    StoreAllIsPutAll(base, t, w, m1, b, y, k);
    PutAllOnlyWindow(t.mem, w, m1, b, y, k);
  }

  /** Memory after the file part is copied and the rest of the segment zeroed. */
  function Placed(w: Window, mem: seq<Frame>, file: seq<Byte>, g: Segment): seq<Frame>
    requires g.offset + g.filesz <= |file| && g.filesz <= g.memsz && Covers(w, g.vaddr, g.memsz)
  {
    TwoBlocks(w, mem, g.vaddr, FilePart(file, g), g.filesz, g.vaddr + g.filesz, Rest(g), g.memsz - g.filesz)
  }

  ghost predicate Mapped(s: Sys, t: Sys, g: Segment, frames: seq<nat>) {
    RangeMapped(s, t, FirstPage(g), frames) && |frames| == PageSpan(g)
  }

  lemma SegmentCovered(s: Sys, t: Sys, file: seq<Byte>, g: Segment, frames: seq<nat>)
    requires Loadable(g) && GoodSegment(file, g) && Mapped(s, t, g, frames)
    ensures Covers(Window(FirstPage(g), frames), g.vaddr, g.memsz)
  {
  }

  lemma PlacedUserPage(s: Sys, t: Sys, w: Window, m: seq<Frame>, i: nat)
    requires Grew(s, t) && Backed(s.used, t, w) && OnlyWindow(t.mem, w, m) && i < |w.frames|
    ensures UserPage(t.(mem := m), w.first + i)
  {
    assert PageBacked(s.used, t, w, i);
    TranslationKept(s.used, t, w, m, w.first + i);
    DataNotTable(s.used, t, w, m, w.frames[i]);
    assert DataPage({}, t.(mem := m), w.first + i, w.frames[i]);
  }

  lemma PlacedByte(w: Window, mem: seq<Frame>, file: seq<Byte>, g: Segment, c: nat)
    requires g.offset + g.filesz <= |file| && g.filesz <= g.memsz && Covers(w, g.vaddr, g.memsz)
    requires Distinct(w.frames, |mem|) && g.vaddr <= c < g.vaddr + g.memsz
    ensures Get(w, Placed(w, mem, file, g), c) == Content(file, g, c - g.vaddr)
  {
    TwoBlocksThenGet(w, mem, g.vaddr, FilePart(file, g), g.filesz,
                     g.vaddr + g.filesz, Rest(g), g.memsz - g.filesz, c);
  }

  lemma ReadLoaded(s: Sys, t: Sys, w: Window, m: seq<Frame>, file: seq<Byte>, g: Segment, k: nat, c: nat)
    requires Grew(s, t) && Backed(s.used, t, w) && OnlyWindow(t.mem, w, m) && GoodSegment(file, g) && Loadable(g)
    requires k < g.memsz && c == g.vaddr + k && Covers(w, c, 1) && Get(w, m, c) == Content(file, g, k)
    ensures ByteLoaded(t.(mem := m), file, g, k)
  {
    ReadIsGet(s.used, t, w, m, c);
    PlacedUserPage(s, t, w, m, c / 4096 - w.first);
    DataInv(s.used, t, w, m);
    UserReads({}, t.(mem := m), c / 4096, FrameOf(Walk(t.(mem := m), c / 4096)), c);
  }

  /** After both steps the segment is loaded. */
  lemma PlacedLoaded(s: Sys, t: Sys, file: seq<Byte>, g: Segment, w: Window, m: seq<Frame>)
    requires Loadable(g) && GoodSegment(file, g) && Grew(s, t) && Backed(s.used, t, w)
    requires Covers(w, g.vaddr, g.memsz) && m == Placed(w, t.mem, file, g) && OnlyWindow(t.mem, w, m)
    ensures SegmentLoaded(t.(mem := m), file, g)
  {
    BackedDistinct(s.used, t, w);
    forall k: nat
      ensures ByteLoaded(t.(mem := m), file, g, k)
    {
      if k < g.memsz {
        var c := g.vaddr + k;
        PlacedByte(w, t.mem, file, g, c);
        ReadLoaded(s, t, w, m, file, g, k, c);
      }
    }
  }

  /** The whole effect of loading one segment on `s`. */
  ghost predicate SegmentStep(s: Sys, t: Sys, file: seq<Byte>, g: Segment) {
    && Extends(s, t) && SegmentLoaded(t, file, g)
    && (forall p: nat :: p < PAGES && !OnPage(g, p) ==> SameWalk(s, t, p))
  }

  lemma PlacedElsewhere(s: Sys, t: Sys, g: Segment, frames: seq<nat>, m: seq<Frame>)
    requires Mapped(s, t, g, frames) && OnlyWindow(t.mem, Window(FirstPage(g), frames), m)
    ensures Extends(s, t.(mem := m)) && Tables(t.(mem := m)) == Tables(t)
    ensures forall p: nat :: p < PAGES && !OnPage(g, p) ==> SameWalk(s, t.(mem := m), p)
  {
    var w := Window(FirstPage(g), frames);
    DataInv(s.used, t, w, m);
    DataExtends(s, t, w, m);
    forall p: nat | p < PAGES && !OnPage(g, p)
      ensures SameWalk(s, t.(mem := m), p)
    {
      assert SameWalk(s, t, p);
      TranslationKept(s.used, t, w, m, p);
    }
  }

  // ----- elf_load -----

  datatype LoadResult = Returned(entry: nat) | NeverReturned

  /** The page the segment loop has come to after `n` rounds: its 32-bit address wraps around. */
  function PageAfter(first: nat, n: nat): nat {
    (first + n) % PAGES
  }

  /** The segment loop can be left through its guard exactly when the segment stays off the last page. On
      the last page only an allocation that fails, a halt or a fault ends it, so no entry point is returned. */
  lemma LoopLeftOffLastPage(g: Segment)
    requires g.memsz > 0 && g.vaddr + g.memsz <= WORD
    ensures (exists n: nat :: PageAfter(FirstPage(g), n) > PageOf(g, g.memsz - 1)) <==> g.vaddr + g.memsz <= LAST_PAGE
  {
    var first, last := FirstPage(g), PageOf(g, g.memsz - 1);
    if last < PAGES - 1 {
      assert PageAfter(first, PAGES - 1 - first) == PAGES - 1;
    }
  }

  /** The directory entries a segment needs. */
  function SegmentTables(g: Segment): set<nat> {
    RangeTables(FirstPage(g), PageSpan(g))
  }

  /** What mapping a segment's pages has led to when no store has gone astray. */
  ghost predicate SegmentMapped(s: Sys, t: Sys, g: Segment, frames: seq<nat>) {
    Sane(t) && Mapped(s, t, g, frames) && Took(s, t, PageSpan(g), SegmentTables(g))
  }

  /** The loop that allocates and maps the pages of one segment. It fails or strays only when frames below
      8 MB are short, with its tables there only when frames are. */
  method MapSegment(m: Machine, g: Segment) returns (r: NewPage, ghost frames: seq<nat>)
    requires m.Good() && Loadable(g) && LOW * 4096 <= g.vaddr && g.vaddr + g.memsz <= LAST_PAGE
    modifies m`intact, m.mem, m.frames`usedPages, m.frames.memoryMap
    ensures m.Sound() && old(m.frames.Used()) <= m.frames.Used() && (m.intact ==> old(m.intact))
    ensures r != Stop ==> m.Good()
    ensures r == Fresh && m.intact ==> SegmentMapped(old(m.Abs()), m.Abs(), g, frames)
    ensures r == NoMemory && m.intact ==> Extends(old(m.Abs()), m.Abs()) && LeastFree(m.Abs()) == m.mem.Length
    ensures old(m.intact) && !(r == Fresh && m.intact) ==> Short(old(m.Abs()), PageSpan(g), SegmentTables(g))
    ensures old(m.intact) && Quiet(old(m.Abs())) && m.mem.Length <= FirstPage(g) && r != Stop ==>
              m.intact && (r == NoMemory ==> Quiet(m.Abs()))
    ensures old(m.intact) && SegmentTables(g) <= Tables(old(m.Abs())) ==>
              m.intact && r != Stop && (r == NoMemory ==> m.mem.Length < |old(m.Abs()).used| + PageSpan(g))
  {
    hide Inv, Tidy, Sane, Spare, Extends, RangeMapped, Backed, MapNew, RangeTables, Took, Short, Quiet, Tables,
         LeastFree;
    ghost var s := m.Abs();
    var firstPageAddr := g.vaddr / 4096 * 4096;
    var lastAddr := g.vaddr + g.memsz - 1;
    var lastPageAddr := lastAddr / 4096 * 4096;
    frames := [];
    if m.intact { PartMappedNone(s, FirstPage(g)); }
    var pageVAddr := firstPageAddr;
    while pageVAddr <= lastPageAddr
      invariant m.Good() && old(m.frames.Used()) <= m.frames.Used() && (m.intact ==> old(m.intact))
      invariant |frames| <= PageSpan(g) && pageVAddr == 4096 * (FirstPage(g) + |frames|)
      invariant m.intact ==> PartMapped(s, m.Abs(), FirstPage(g), frames)
      invariant old(m.intact) && !m.intact ==> Short(s, PageSpan(g), SegmentTables(g))
      invariant old(m.intact) && Quiet(s) && |s.mem| <= FirstPage(g) ==> m.intact
      invariant old(m.intact) && SegmentTables(g) <= Tables(s) ==> m.intact
    {
      ghost var t := m.Abs();
      ghost var page := FirstPage(g) + |frames|;
      if m.intact { MapStep(s, t, FirstPage(g), frames, PageSpan(g), page); }
      r := m.MapNewPage(pageVAddr);
      if r != Fresh { return; }
      frames := frames + [LeastFree(t)];
      pageVAddr := pageVAddr + 4096;
    }
    r := Fresh;
  }

  /** Memory between the two copying steps, and what they lead to. */
  ghost predicate Copies(t: Sys, file: seq<Byte>, g: Segment, m1: seq<Frame>, m2: seq<Frame>)
    requires Shape(t) && GoodSegment(file, g) && Loadable(g)
  {
    && |m1| == |t.mem|
    && StoreAll(t.mem, t.pd, g.vaddr, FilePart(file, g), g.filesz) == Some(m1)
    && StoreAll(m1, t.pd, g.vaddr + g.filesz, Rest(g), g.memsz - g.filesz) == Some(m2)
    && (g.filesz == 0 ==> m1 == t.mem)
    && (g.memsz == g.filesz ==> m2 == m1)
  }

  lemma CopyingSteps(s: Sys, t: Sys, file: seq<Byte>, g: Segment, frames: seq<nat>)
    returns (m1: seq<Frame>, m2: seq<Frame>)
    requires Loadable(g) && GoodSegment(file, g) && Mapped(s, t, g, frames)
    ensures Copies(t, file, g, m1, m2)
    ensures var w := Window(FirstPage(g), frames);
            Covers(w, g.vaddr, g.memsz) && m2 == Placed(w, t.mem, file, g) && OnlyWindow(t.mem, w, m2)
  {
    hide StoreAll, PutAll, Inv, Backed, OnlyWindow, NewOrSame, Kept, Tables;
    var w := Window(FirstPage(g), frames);
    SegmentCovered(s, t, file, g, frames);
    m1 := PutAll(w, t.mem, g.vaddr, FilePart(file, g), g.filesz);
    m2 := Placed(w, t.mem, file, g);
    TwoStores(s.used, t, w, g.vaddr, FilePart(file, g), g.filesz,
              g.vaddr + g.filesz, Rest(g), g.memsz - g.filesz, m1, m2);
  }

  lemma PlacedStep(s: Sys, t: Sys, file: seq<Byte>, g: Segment, frames: seq<nat>, m: seq<Frame>)
    requires Loadable(g) && GoodSegment(file, g) && Mapped(s, t, g, frames)
    requires var w := Window(FirstPage(g), frames);
             Covers(w, g.vaddr, g.memsz) && m == Placed(w, t.mem, file, g) && OnlyWindow(t.mem, w, m)
    ensures SegmentStep(s, t.(mem := m), file, g) && Tables(t.(mem := m)) == Tables(t)
  {
    PlacedLoaded(s, t, file, g, Window(FirstPage(g), frames), m);
    PlacedElsewhere(s, t, g, frames, m);
  }

  method CopyFilePart(m: Machine, file: seq<Byte>, g: Segment) returns (ok: bool)
    requires m.Sound() && Loadable(g) && GoodSegment(file, g)
    modifies m.mem
    ensures m.Sound() && m.frames.Used() == old(m.frames.Used())
    ensures match StoreAll(old(m.mem[..]), m.pd, g.vaddr, FilePart(file, g), g.filesz)
            case None => !ok
            case Some(m1) => ok && m.mem[..] == m1
  {
    ok := true;
    if g.filesz > 0 {
      ok := m.CopyIn(g.vaddr, FilePart(file, g), g.filesz);
    }
  }

  method ClearRest(m: Machine, file: seq<Byte>, g: Segment) returns (ok: bool)
    requires m.Sound() && Loadable(g) && GoodSegment(file, g)
    modifies m.mem
    ensures m.Sound() && m.frames.Used() == old(m.frames.Used())
    ensures match StoreAll(old(m.mem[..]), m.pd, g.vaddr + g.filesz, Rest(g), g.memsz - g.filesz)
            case None => !ok
            case Some(m2) => ok && m.mem[..] == m2
  {
    hide StoreAll;
    NothingStored(m.mem[..], m.pd, g.vaddr + g.filesz, Rest(g));
    ok := true;
    if g.memsz > g.filesz {
      ok := m.Fill(g.vaddr + g.filesz, 0, g.memsz - g.filesz);
    }
  }

  /** The two copying steps for a segment whose pages are mapped; false when they fault, which they
      do not while no store has gone astray. */
  method CopySegment(m: Machine, file: seq<Byte>, g: Segment, ghost s: Sys, ghost frames: seq<nat>) returns (ok: bool)
    requires m.Good() && Loadable(g) && GoodSegment(file, g)
    requires m.intact ==> Sane(s) && Mapped(s, m.Abs(), g, frames)
    modifies m.mem
    ensures m.Sound() && m.frames.Used() == old(m.frames.Used()) && (ok ==> m.Good())
    ensures m.intact ==> ok && SegmentStep(s, m.Abs(), file, g) && Tables(m.Abs()) == old(Tables(m.Abs()))
  {
    hide Inv, Tidy, Sane, Spare, Mapped, SegmentStep, StoreAll, FilePart, Rest, Tables;
    ghost var t := m.Abs();
    ghost var m1, m2;
    if m.intact {
      m1, m2 := CopyingSteps(s, t, file, g, frames);
      PlacedStep(s, t, file, g, frames, m2);
      StepStaysSane(s, t.(mem := m2), file, g);
    }
    ok := CopyFilePart(m, file, g);
    if !ok { return; }
    ok := ClearRest(m, file, g);
    SameSpare(t, m.Abs());
    if m.intact {
      assert m.Abs() == t.(mem := m2);
    }
  }

  lemma StepStaysSane(s: Sys, t: Sys, file: seq<Byte>, g: Segment)
    requires Sane(s) && SegmentStep(s, t, file, g)
    ensures Sane(t)
  {
    TidyStays(s, t);
  }

  ghost predicate OnSegment(gs: seq<Segment>, n: nat, page: nat, j: nat) {
    j < n <= |gs| && Loadable(gs[j]) && OnPage(gs[j], page)
  }

  /** One of the first `n` segments touches the page. */
  ghost predicate OnImage(gs: seq<Segment>, n: nat, page: nat) {
    exists j: nat :: OnSegment(gs, n, page, j)
  }

  /** One of the first `n` segments behind segment `j` maps the page anew. */
  ghost predicate CoveredLater(gs: seq<Segment>, n: nat, j: nat, page: nat) {
    exists l: nat :: j < l && OnSegment(gs, n, page, l)
  }

  /** Of the first `n` segments the last that touches a page decides what is on it. */
  ghost predicate ByteStands(s: Sys, file: seq<Byte>, gs: seq<Segment>, n: nat, j: nat, k: nat) {
    j < n <= |gs| && Loadable(gs[j]) && k < gs[j].memsz && !CoveredLater(gs, n, j, PageOf(gs[j], k)) ==>
      ByteLoaded(s, file, gs[j], k)
  }

  ghost predicate LoadedAt(s: Sys, file: seq<Byte>, gs: seq<Segment>, n: nat, j: nat) {
    forall k: nat :: ByteStands(s, file, gs, n, j, k)
  }

  /** Pages of the first `n` segments are mapped, no other translation has changed. */
  ghost predicate MappedOrSame(s: Sys, t: Sys, gs: seq<Segment>, n: nat, page: nat)
    requires Shape(s) && Shape(t)
  {
    page < PAGES ==> if OnImage(gs, n, page) then Walk(t, page) != 0 else SameWalk(s, t, page)
  }

  /** A page of one of the first `n` segments is the program's. */
  ghost predicate PageLoaded(t: Sys, gs: seq<Segment>, n: nat, page: nat) {
    OnImage(gs, n, page) ==> UserPage(t, page)
  }

  /** The first `n` segments are loaded and nothing that was in use before has changed. */
  ghost predicate Loaded(s: Sys, t: Sys, file: seq<Byte>, gs: seq<Segment>, n: nat) {
    && Extends(s, t) && (forall j: nat :: LoadedAt(t, file, gs, n, j))
    && (forall p: nat :: PageLoaded(t, gs, n, p))
  }

  /** No page off the first `n` segments has been mapped anew. */
  ghost predicate NothingElse(s: Sys, t: Sys, gs: seq<Segment>, n: nat)
    requires Shape(s) && Shape(t)
  {
    forall p: nat :: MappedOrSame(s, t, gs, n, p)
  }

  /** Every page of the image is mapped. */
  lemma ImageIsMapped(s: Sys, t: Sys, gs: seq<Segment>, n: nat, page: nat)
    requires Shape(s) && Shape(t) && NothingElse(s, t, gs, n) && page < PAGES
    ensures Walk(t, page) != 0 <==> Walk(s, page) != 0 || OnImage(gs, n, page)
  {
    assert MappedOrSame(s, t, gs, n, page);
  }

  /** The addresses of a segment are on its pages. */
  lemma AddressOnImage(gs: seq<Segment>, j: nat, k: nat)
    requires j < |gs| && Loadable(gs[j]) && k < gs[j].memsz
    ensures OnImage(gs, |gs|, (gs[j].vaddr + k) / 4096)
  {
    assert OnSegment(gs, |gs|, (gs[j].vaddr + k) / 4096, j);
  }

  /** A program can store at every address of its segments: the byte reads back, and it changes no other byte the
      program can read. */
  lemma ImageIsWritable(s: Sys, t: Sys, file: seq<Byte>, gs: seq<Segment>, j: nat, k: nat, b: Byte)
    requires Sane(t) && Loaded(s, t, file, gs, |gs|) && j < |gs| && Loadable(gs[j]) && k < gs[j].memsz
    ensures Stores(t, gs[j].vaddr + k, b)
  {
    var a := gs[j].vaddr + k;
    AddressOnImage(gs, j, k);
    assert PageLoaded(t, gs, |gs|, a / 4096);
    ProgramStores(t, a, b, FrameOf(Walk(t, a / 4096)));
  }

  /** What a program reads at an address of a segment whose page no later segment touches: the file's
      bytes, then zeros. */
  lemma ImageByte(s: Sys, t: Sys, file: seq<Byte>, gs: seq<Segment>, j: nat, k: nat)
    requires WellPlaced(file, gs) && Loaded(s, t, file, gs, |gs|)
    requires j < |gs| && Loadable(gs[j]) && k < gs[j].memsz && !CoveredLater(gs, |gs|, j, PageOf(gs[j], k))
    ensures var g := gs[j];
            && g.offset + g.filesz <= |file| && g.vaddr + k < WORD
            && UserByteAt(t.mem, t.pd, g.vaddr + k) == Some(if k < g.filesz then file[g.offset + k] else 0)
  {
    assert GoodAt(file, gs, j) && LoadedAt(t, file, gs, |gs|, j);
    assert ByteStands(t, file, gs, |gs|, j, k);
  }

  /** Where segments overlap, the byte of the earlier one reads its content if and only if the last segment
      on that page puts the same there. */
  lemma OverlapReadsLast(s: Sys, t: Sys, file: seq<Byte>, gs: seq<Segment>, j: nat, k: nat, l: nat, i: nat)
    requires WellPlaced(file, gs) && Loaded(s, t, file, gs, |gs|)
    requires j < l < |gs| && Loadable(gs[j]) && k < gs[j].memsz && Loadable(gs[l]) && i < gs[l].memsz
    requires gs[l].vaddr + i == gs[j].vaddr + k && !CoveredLater(gs, |gs|, l, PageOf(gs[l], i))
    ensures gs[j].offset + gs[j].filesz <= |file| && gs[l].offset + gs[l].filesz <= |file|
    ensures ByteLoaded(t, file, gs[j], k) <==> Content(file, gs[j], k) == Content(file, gs[l], i)
  {
    assert GoodAt(file, gs, j) && GoodAt(file, gs, l) && LoadedAt(t, file, gs, |gs|, l);
    assert ByteStands(t, file, gs, |gs|, l, i);
  }

  /** Two loadable segments share no page. */
  predicate ApartAt(gs: seq<Segment>, i: nat, j: nat) {
    i < j < |gs| && Loadable(gs[i]) && Loadable(gs[j]) ==>
      FirstPage(gs[i]) + PageSpan(gs[i]) <= FirstPage(gs[j]) ||
      FirstPage(gs[j]) + PageSpan(gs[j]) <= FirstPage(gs[i])
  }

  lemma ApartNotCovered(gs: seq<Segment>, j: nat, k: nat)
    requires j < |gs| && Loadable(gs[j]) && k < gs[j].memsz && forall i: nat, l: nat :: ApartAt(gs, i, l)
    ensures !CoveredLater(gs, |gs|, j, PageOf(gs[j], k))
  {
    assert OnPage(gs[j], PageOf(gs[j], k));
    forall l: nat | j < l
      ensures !OnSegment(gs, |gs|, PageOf(gs[j], k), l)
    {
      assert ApartAt(gs, j, l);
    }
  }

  /** When no two segments share a page, every byte of each stands. */
  lemma ApartReadsAll(s: Sys, t: Sys, file: seq<Byte>, gs: seq<Segment>, j: nat)
    requires WellPlaced(file, gs) && Loaded(s, t, file, gs, |gs|) && j < |gs|
    requires forall i: nat, l: nat :: ApartAt(gs, i, l)
    ensures SegmentLoaded(t, file, gs[j])
  {
    assert LoadedAt(t, file, gs, |gs|, j);
    forall k: nat
      ensures ByteLoaded(t, file, gs[j], k)
    {
      assert ByteStands(t, file, gs, |gs|, j, k);
      if Loadable(gs[j]) && k < gs[j].memsz { ApartNotCovered(gs, j, k); }
    }
  }

  /** Loading leaves every frame alone that was in use and is no page table. */
  lemma LoadedLeavesAlone(s: Sys, t: Sys, file: seq<Byte>, gs: seq<Segment>, f: nat)
    requires Loaded(s, t, file, gs, |gs|) && f in s.used && f < |s.mem| && NotTable(s, f)
    ensures t.mem[f] == s.mem[f] && f in t.used && NotTable(t, f)
  {
    assert Kept(s, t, f);
  }

  function PagesOf(gs: seq<Segment>, n: nat): nat
    requires n <= |gs|
    decreases n
  {
    if n == 0 then 0 else PagesOf(gs, n - 1) + (if Loadable(gs[n - 1]) then PageSpan(gs[n - 1]) else 0)
  }

  lemma {:induction false} PagesGrow(gs: seq<Segment>, n: nat)
    requires n <= |gs|
    ensures PagesOf(gs, n) <= PagesOf(gs, |gs|)
    decreases |gs| - n
  {
    if n < |gs| {
      PagesGrow(gs, n + 1);
    }
  }

  lemma LoadedNone(s: Sys, file: seq<Byte>, gs: seq<Segment>)
    requires Inv(s)
    ensures Loaded(s, s, file, gs, 0)
  {
    ExtendsItself(s);
  }

  lemma LoadedSkip(s: Sys, t: Sys, file: seq<Byte>, gs: seq<Segment>, n: nat)
    requires n < |gs| && Loaded(s, t, file, gs, n) && !Loadable(gs[n])
    ensures Loaded(s, t, file, gs, n + 1)
  {
    var n' := n + 1;
    forall j: nat
      ensures LoadedAt(t, file, gs, n', j)
    {
      assert LoadedAt(t, file, gs, n, j);
      forall k: nat
        ensures ByteStands(t, file, gs, n', j, k)
      {
        assert ByteStands(t, file, gs, n, j, k);
        if j < n { CoveredMore(gs, n, j, PageOf(gs[j], k)); }
      }
    }
    forall p: nat
      ensures PageLoaded(t, gs, n', p)
    {
      assert PageLoaded(t, gs, n, p);
      OnImageMore(gs, n, p);
    }
  }

  /** A page that is touched stays so. */
  lemma CoveredMore(gs: seq<Segment>, n: nat, j: nat, page: nat)
    requires n < |gs|
    ensures CoveredLater(gs, n, j, page) ==> CoveredLater(gs, n + 1, j, page)
    ensures j < n && Loadable(gs[n]) && OnPage(gs[n], page) ==> CoveredLater(gs, n + 1, j, page)
  {
    if CoveredLater(gs, n, j, page) {
      var l: nat :| j < l && OnSegment(gs, n, page, l);
      assert OnSegment(gs, n + 1, page, l);
    }
    if j < n && Loadable(gs[n]) && OnPage(gs[n], page) {
      assert OnSegment(gs, n + 1, page, n);
    }
  }

  lemma LoadedMore(s: Sys, t: Sys, u: Sys, file: seq<Byte>, gs: seq<Segment>, n: nat)
    requires n < |gs| && Loaded(s, t, file, gs, n) && Loadable(gs[n]) && GoodSegment(file, gs[n])
    requires SegmentStep(t, u, file, gs[n])
    ensures Loaded(s, u, file, gs, n + 1)
  {
    ExtendsTransitive(s, t, u);
    var n' := n + 1;
    forall j: nat
      ensures LoadedAt(u, file, gs, n', j)
    {
      assert LoadedAt(t, file, gs, n, j);
      forall k: nat
        ensures ByteStands(u, file, gs, n', j, k)
      {
        if j == n {
          assert ByteLoaded(u, file, gs[n], k);
        } else if j < n && !CoveredLater(gs, n', j, PageOf(gs[j], k)) {
          CoveredMore(gs, n, j, PageOf(gs[j], k));
          assert ByteStands(t, file, gs, n, j, k);
          if Loadable(gs[j]) && k < gs[j].memsz { ByteKept(t, u, file, gs[j], k); }
        }
      }
    }
    forall p: nat
      ensures PageLoaded(u, gs, n', p)
    {
      assert PageLoaded(t, gs, n, p);
      OnImageMore(gs, n, p);
      if OnImage(gs, n', p) { PageStepped(t, u, file, gs[n], p); }
    }
  }

  /** A page of the new segment is the program's, and one that was so stays so. */
  lemma PageStepped(t: Sys, u: Sys, file: seq<Byte>, g: Segment, page: nat)
    requires Loadable(g) && GoodSegment(file, g) && SegmentStep(t, u, file, g)
    requires OnPage(g, page) || UserPage(t, page)
    ensures UserPage(u, page)
  {
    if OnPage(g, page) {
      assert ByteLoaded(u, file, g, if page == FirstPage(g) then 0 else page * 4096 - g.vaddr);
    } else {
      DataPageKept({}, t, u, page, FrameOf(Walk(t, page)));
    }
  }

  /** The directory entries the first `n` segments need. */
  function TablesOf(gs: seq<Segment>, n: nat): set<nat>
    requires n <= |gs|
    decreases n
  {
    if n == 0 then {} else TablesOf(gs, n - 1) + (if Loadable(gs[n - 1]) then SegmentTables(gs[n - 1]) else {})
  }

  lemma {:induction false} TablesOfGrow(gs: seq<Segment>, n: nat)
    requires n <= |gs|
    ensures TablesOf(gs, n) <= TablesOf(gs, |gs|)
    decreases |gs| - n
  {
    if n < |gs| {
      TablesOfGrow(gs, n + 1);
    }
  }

  predicate AboveAt(gs: seq<Segment>, n: nat, j: nat) {
    j < |gs| && Loadable(gs[j]) ==> n <= FirstPage(gs[j])
  }

  /** Every loadable segment lies at virtual pages from `n` on. */
  ghost predicate Above(gs: seq<Segment>, n: nat) {
    forall j: nat :: AboveAt(gs, n, j)
  }

  /** The first `n` segments are loaded, and exactly what they need has been taken. */
  ghost predicate LoadedPart(s: Sys, t: Sys, file: seq<Byte>, gs: seq<Segment>, n: nat)
    requires n <= |gs|
  {
    && Sane(t) && Loaded(s, t, file, gs, n) && Took(s, t, PagesOf(gs, n), TablesOf(gs, n))
    && NothingElse(s, t, gs, n)
  }

  lemma LoadedPartNone(s: Sys, file: seq<Byte>, gs: seq<Segment>)
    requires Sane(s)
    ensures LoadedPart(s, s, file, gs, 0)
  {
    LoadedNone(s, file, gs);
    assert {} - Tables(s) == {} && Tables(s) == Tables(s) + {};
  }

  lemma LoadedPartSkip(s: Sys, t: Sys, file: seq<Byte>, gs: seq<Segment>, n: nat)
    requires n < |gs| && !Loadable(gs[n])
    ensures PagesOf(gs, n + 1) == PagesOf(gs, n) && TablesOf(gs, n + 1) == TablesOf(gs, n)
    ensures LoadedPart(s, t, file, gs, n) ==> LoadedPart(s, t, file, gs, n + 1)
  {
    if LoadedPart(s, t, file, gs, n) {
      LoadedSkip(s, t, file, gs, n);
      StepNothingElse(s, t, t, file, gs, n);
    }
  }

  lemma StepNothingElse(s: Sys, t: Sys, u: Sys, file: seq<Byte>, gs: seq<Segment>, n: nat)
    requires Shape(s) && Shape(t) && n < |gs| && NothingElse(s, t, gs, n)
    requires if Loadable(gs[n]) then SegmentStep(t, u, file, gs[n]) && GoodSegment(file, gs[n]) else u == t
    ensures NothingElse(s, u, gs, n + 1)
  {
    var n', g := n + 1, gs[n];
    forall p: nat
      ensures MappedOrSame(s, u, gs, n', p)
    {
      assert MappedOrSame(s, t, gs, n, p);
      OnImageMore(gs, n, p);
      if p < PAGES && Loadable(g) {
        if OnPage(g, p) {
          assert ByteLoaded(u, file, g, if p == FirstPage(g) then 0 else p * 4096 - g.vaddr);
        } else {
          assert SameWalk(t, u, p);
        }
      }
    }
  }

  lemma OnImageMore(gs: seq<Segment>, n: nat, page: nat)
    requires n < |gs|
    ensures OnImage(gs, n + 1, page) <==> OnImage(gs, n, page) || (Loadable(gs[n]) && OnPage(gs[n], page))
  {
    if OnImage(gs, n, page) {
      var j: nat :| OnSegment(gs, n, page, j);
      assert OnSegment(gs, n + 1, page, j);
    }
    if Loadable(gs[n]) && OnPage(gs[n], page) {
      assert OnSegment(gs, n + 1, page, n);
    }
    if OnImage(gs, n + 1, page) {
      var j: nat :| OnSegment(gs, n + 1, page, j);
      assert j < n ==> OnSegment(gs, n, page, j);
    }
  }

  lemma LoadedPartMore(s: Sys, t: Sys, u: Sys, file: seq<Byte>, gs: seq<Segment>, n: nat)
    requires n < |gs| && Loadable(gs[n]) && Sane(u) && GoodSegment(file, gs[n])
    requires LoadedPart(s, t, file, gs, n) && SegmentStep(t, u, file, gs[n])
    requires Took(t, u, PageSpan(gs[n]), SegmentTables(gs[n]))
    ensures LoadedPart(s, u, file, gs, n + 1)
  {
    hide Took, Sane, Loaded, SegmentStep, SegmentTables, NothingElse;
    LoadedPartMeans(s, t, file, gs, n);
    LoadedMore(s, t, u, file, gs, n);
    StepNothingElse(s, t, u, file, gs, n);
    TookInTwoSteps(s, t, u, PagesOf(gs, n), TablesOf(gs, n), PageSpan(gs[n]), SegmentTables(gs[n]));
  }

  lemma LoadedPartMeans(s: Sys, t: Sys, file: seq<Byte>, gs: seq<Segment>, n: nat)
    requires n <= |gs| && LoadedPart(s, t, file, gs, n)
    ensures Sane(t) && Loaded(s, t, file, gs, n) && Took(s, t, PagesOf(gs, n), TablesOf(gs, n)) && Extends(s, t)
    ensures Shape(s) && Shape(t) && NothingElse(s, t, gs, n)
  {
  }

  /** A segment that cannot be had makes the whole image short. */
  lemma ImageShort(s: Sys, t: Sys, file: seq<Byte>, gs: seq<Segment>, n: nat)
    requires n < |gs| && Loadable(gs[n]) && LoadedPart(s, t, file, gs, n)
    requires Shape(t) && Short(t, PageSpan(gs[n]), SegmentTables(gs[n]))
    ensures Shape(s) && Short(s, PagesOf(gs, |gs|), TablesOf(gs, |gs|))
  {
    hide Sane, Loaded, Took, Short, Tables, SegmentTables, PageSpan;
    LoadedPartMeans(s, t, file, gs, n);
    ShortEarlier(s, t, PagesOf(gs, n), TablesOf(gs, n), PageSpan(gs[n]), SegmentTables(gs[n]));
    PagesGrow(gs, n + 1);
    TablesOfGrow(gs, n + 1);
    ShortMore(s, PagesOf(gs, n + 1), TablesOf(gs, n + 1), PagesOf(gs, |gs|), TablesOf(gs, |gs|));
  }

  lemma {:induction false} QuietStays(s: Sys, t: Sys, file: seq<Byte>, gs: seq<Segment>, n: nat)
    requires n < |gs| && Loadable(gs[n]) && SegmentStep(s, t, file, gs[n])
    ensures Quiet(s) && Above(gs, |s.mem|) ==> Quiet(t)
  {
    if Quiet(s) && Above(gs, |s.mem|) {
      assert AboveAt(gs, |s.mem|, n);
      forall p: nat | LOW <= p < |t.mem|
        ensures UnmappedAt(t, p)
      {
        assert UnmappedAt(s, p) && SameWalk(s, t, p);
      }
    }
  }

  lemma AboveMeans(gs: seq<Segment>, n: nat, j: nat)
    requires j < |gs| && Loadable(gs[j])
    ensures Above(gs, n) ==> n <= FirstPage(gs[j])
  {
    if Above(gs, n) {
      assert AboveAt(gs, n, j);
    }
  }

  /** What has become of an image when its next segment is mapped and filled, or cannot be had. */
  lemma SegmentLoads(s: Sys, t: Sys, u: Sys, v: Sys, file: seq<Byte>, gs: seq<Segment>, n: nat, frames: seq<nat>)
    requires n < |gs| && WellPlaced(file, gs) && Loadable(gs[n])
    requires LoadedPart(s, t, file, gs, n) && SegmentMapped(t, u, gs[n], frames)
    requires SegmentStep(t, v, file, gs[n]) && Sane(v)
    requires v.used == u.used && |v.mem| == |u.mem| && Tables(v) == Tables(u)
    ensures LoadedPart(s, v, file, gs, n + 1)
    ensures Quiet(t) && Above(gs, |t.mem|) ==> Quiet(v)
  {
    hide Inv, Tidy, SegmentStep, Tables, SegmentTables, Quiet, Above, LoadedPart, Mapped;
    SaneMeans(v);
    assert GoodAt(file, gs, n);
    TookSame(t, u, v, PageSpan(gs[n]), SegmentTables(gs[n]));
    LoadedPartMore(s, t, v, file, gs, n);
    QuietStays(t, v, file, gs, n);
  }

  lemma TookSame(s: Sys, t: Sys, u: Sys, n: nat, dirs: set<nat>)
    requires Took(s, t, n, dirs) && Shape(u)
    requires u.used == t.used && |u.mem| == |t.mem| && Tables(u) == Tables(t)
    ensures Took(s, u, n, dirs)
  {
  }

  /** With all tables there, a segment has its own, and only pages have been taken so far. */
  lemma SegmentWithTables(s: Sys, t: Sys, gs: seq<Segment>, n: nat)
    requires n < |gs| && Loadable(gs[n]) && Took(s, t, PagesOf(gs, n), TablesOf(gs, n))
    ensures TablesOf(gs, |gs|) <= Tables(s) ==>
              && SegmentTables(gs[n]) <= Tables(t) && |t.used| == |s.used| + PagesOf(gs, n)
              && PagesOf(gs, n) + PageSpan(gs[n]) <= PagesOf(gs, |gs|)
  {
    hide Tables, SegmentTables, PageSpan;
    if TablesOf(gs, |gs|) <= Tables(s) {
      TablesOfGrow(gs, n);
      TablesOfGrow(gs, n + 1);
      PagesGrow(gs, n + 1);
      TookWithTables(s, t, PagesOf(gs, n), TablesOf(gs, n));
    }
  }

  /** One loadable segment: its pages, then its bytes. */
  method LoadSegment(m: Machine, file: seq<Byte>, gs: seq<Segment>, i: nat, ghost s: Sys) returns (r: NewPage)
    requires m.Good() && i < |gs| && WellPlaced(file, gs) && Loadable(gs[i])
    requires Shape(s) && (m.intact ==> LoadedPart(s, m.Abs(), file, gs, i))
    modifies m`intact, m.mem, m.frames`usedPages, m.frames.memoryMap
    ensures m.Sound() && old(m.frames.Used()) <= m.frames.Used() && (m.intact ==> old(m.intact))
    ensures r != Stop ==> m.Good()
    ensures r == Fresh && m.intact ==> LoadedPart(s, m.Abs(), file, gs, i + 1)
    ensures r == NoMemory && m.intact ==> Extends(s, m.Abs()) && LeastFree(m.Abs()) == m.mem.Length
    ensures old(m.intact) && !(r == Fresh && m.intact) ==>
              Short(s, PagesOf(gs, |gs|), TablesOf(gs, |gs|))
    ensures old(m.intact) && Quiet(old(m.Abs())) && Above(gs, m.mem.Length) && r != Stop ==>
              m.intact && Quiet(m.Abs())
    ensures old(m.intact) && TablesOf(gs, |gs|) <= Tables(s) ==>
              m.intact && r != Stop && (r == NoMemory ==> |s.mem| < |s.used| + PagesOf(gs, |gs|))
  {
    hide Inv, Tidy, Sane, Spare, Extends, LoadedPart, SegmentStep, Took, Short, Quiet, Tables, LeastFree,
         SegmentTables, Mapped;
    ghost var t := m.Abs();
    if m.intact {
      LoadedPartMeans(s, t, file, gs, i);
      SegmentWithTables(s, t, gs, i);
    }
    assert GoodAt(file, gs, i);
    AboveMeans(gs, m.mem.Length, i);
    ghost var frames: seq<nat>;
    r, frames := MapSegment(m, gs[i]);
    ghost var u := m.Abs();
    if old(m.intact) && !(r == Fresh && m.intact) { ImageShort(s, t, file, gs, i); }
    if r != Fresh {
      if r == NoMemory && m.intact {
        LoadedPartMeans(s, t, file, gs, i);
        ExtendsTransitive(s, t, u);
      }
      return;
    }
    var ok := CopySegment(m, file, gs[i], t, frames);
    if !ok { return Stop; }
    if m.intact { SegmentLoads(s, t, u, m.Abs(), file, gs, i, frames); }
  }

  /** All segments in turn. */
  method LoadSegments(m: Machine, file: seq<Byte>, gs: seq<Segment>) returns (r: NewPage)
    requires m.Good() && WellPlaced(file, gs)
    modifies m`intact, m.mem, m.frames`usedPages, m.frames.memoryMap
    ensures m.Sound() && old(m.frames.Used()) <= m.frames.Used() && (m.intact ==> old(m.intact))
    ensures r != Stop ==> m.Good()
    ensures r == Fresh && m.intact ==> LoadedPart(old(m.Abs()), m.Abs(), file, gs, |gs|)
    ensures r == NoMemory && m.intact ==> Extends(old(m.Abs()), m.Abs()) && LeastFree(m.Abs()) == m.mem.Length
    ensures old(m.intact) && !(r == Fresh && m.intact) ==>
              Short(old(m.Abs()), PagesOf(gs, |gs|), TablesOf(gs, |gs|))
    ensures old(m.intact) && Quiet(old(m.Abs())) && Above(gs, m.mem.Length) && r != Stop ==>
              m.intact && Quiet(m.Abs())
    ensures old(m.intact) && TablesOf(gs, |gs|) <= Tables(old(m.Abs())) ==>
              && m.intact && r != Stop
              && (r == NoMemory ==> m.mem.Length < |old(m.Abs()).used| + PagesOf(gs, |gs|))
  {
    hide Inv, Tidy, Sane, Spare, Extends, LoadedPart, SegmentStep, Took, Short, Quiet, Tables, LeastFree,
         SegmentTables, Mapped;
    ghost var s := m.Abs();
    if m.intact { LoadedPartNone(s, file, gs); }
    for i := 0 to |gs|
      invariant m.Good() && old(m.frames.Used()) <= m.frames.Used() && (m.intact ==> old(m.intact))
      invariant m.intact ==> LoadedPart(s, m.Abs(), file, gs, i)
      invariant old(m.intact) && !m.intact ==> Short(s, PagesOf(gs, |gs|), TablesOf(gs, |gs|))
      invariant old(m.intact) && Quiet(s) && Above(gs, |s.mem|) ==> m.intact && Quiet(m.Abs())
      invariant old(m.intact) && TablesOf(gs, |gs|) <= Tables(s) ==> m.intact
    {
      ghost var t := m.Abs();
      var g := gs[i];
      if g.kind == PT_LOAD {
        if g.memsz == 0 {
          LoadedPartSkip(s, t, file, gs, i);
          continue;
        }
        assert GoodAt(file, gs, i);
        r := LoadSegment(m, file, gs, i, s);
        if r != Fresh { return; }
      } else {
        LoadedPartSkip(s, t, file, gs, i);
      }
    }
    r := Fresh;
  }

  /** What `elf_load` takes on success: a frame for each page, and the tables. */
  function FilePages(file: seq<Byte>): nat
    requires TableInFile(file)
  {
    PagesOf(Segments(file), |Segments(file)|)
  }

  function FileTables(file: seq<Byte>): set<nat>
    requires TableInFile(file)
  {
    TablesOf(Segments(file), |Segments(file)|)
  }

  ghost predicate FileAbove(file: seq<Byte>, n: nat)
    requires TableInFile(file)
  {
    Above(Segments(file), n)
  }

  /** `elf_load`. A nonzero result is the file's entry point; if no store has gone astray, then on each
      page of the image what the last segment there has put reads back through the page walk, nothing in
      use before has changed, and the frames taken are one for each page of each segment plus one for
      each page table that was missing. A zero result means a file that is not accepted, an entry point
      of zero, or that every frame is used. It fails or strays only when frames below 8 MB are short, with
      its tables there only when frames are; off virtual pages from 8 MB to the end of memory it never
      strays. */
  method Load(m: Machine, elfData: Option<seq<Byte>>) returns (r: LoadResult)
    requires m.Good() && (elfData.Some? ==> WellFormed(elfData.value))
    modifies m`intact, m.mem, m.frames`usedPages, m.frames.memoryMap
    ensures m.Sound() && old(m.frames.Used()) <= m.frames.Used() && (m.intact ==> old(m.intact))
    ensures r.Returned? ==> m.Good()
    ensures r.Returned? && m.intact ==> Extends(old(m.Abs()), m.Abs())
    ensures elfData == None || !Accepted(elfData.value) ==>
              r == Returned(0) && m.Abs() == old(m.Abs()) && m.intact == old(m.intact)
    ensures r.Returned? && r.entry != 0 ==>
              elfData.Some? && Accepted(elfData.value) && r.entry == EntryPoint(elfData.value)
    ensures r.Returned? && r.entry != 0 && m.intact ==>
              LoadedPart(old(m.Abs()), m.Abs(), elfData.value, Segments(elfData.value), |Segments(elfData.value)|)
    ensures r == Returned(0) && m.intact ==>
              elfData == None || !Accepted(elfData.value) || EntryPoint(elfData.value) == 0 ||
              LeastFree(m.Abs()) == m.mem.Length
    ensures elfData.Some? && Accepted(elfData.value) && old(m.intact) &&
            !(r == Returned(EntryPoint(elfData.value)) && m.intact) ==>
              Short(old(m.Abs()), FilePages(elfData.value), FileTables(elfData.value))
    ensures elfData.Some? && Accepted(elfData.value) && old(m.intact) && Quiet(old(m.Abs())) &&
            FileAbove(elfData.value, m.mem.Length) && r.Returned? ==>
              m.intact && Quiet(m.Abs())
    ensures elfData.Some? && Accepted(elfData.value) && old(m.intact) &&
            FileTables(elfData.value) <= Tables(old(m.Abs())) ==>
              && m.intact && r.Returned?
              && (r.entry != EntryPoint(elfData.value) ==>
                    m.mem.Length < |old(m.Abs()).used| + FilePages(elfData.value))
  {
    hide Inv, Tidy, Sane, Spare, Extends, Took, Short, Quiet, Tables, LeastFree, Loaded, LoadedPart, PagesOf,
         TablesOf, Above;
    ghost var s := m.Abs();
    if m.intact { SaneExtendsItself(s); }
    if elfData == None { return Returned(0); }
    var file := elfData.value;
    if !Accepted(file) { return Returned(0); }
    var status := LoadSegments(m, file, Segments(file));
    if status == NoMemory { return Returned(0); }
    if status == Stop { return NeverReturned; }
    if m.intact { LoadedPartMeans(s, m.Abs(), file, Segments(file), |Segments(file)|); }
    r := Returned(EntryPoint(file));
  }

  lemma SaneExtendsItself(s: Sys)
    requires Sane(s)
    ensures Extends(s, s)
  {
    ExtendsItself(s);
  }
}
