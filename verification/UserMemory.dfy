/** Pages mapped for a process: allocating and mapping a run of them, and writing bytes through
    their virtual addresses. */
module UserMemory {
  import opened Words
  import opened Bytes
  import opened Options
  import opened Paging
  import opened Windows

  // ----- bytes at virtual addresses -----

  /** The byte the processor reads at a virtual address, `None` for a page fault. */
  function ByteAt(mem: seq<Frame>, pd: nat, a: nat): Option<Byte>
    requires pd < |mem| && a < WORD
  {
    var e := WalkIn(mem, pd, a / 4096);
    if e == 0 || FrameOf(e) >= |mem| then None else Some(LoadByte(mem[FrameOf(e)], a % 4096))
  }

  /** The byte a program reads at a virtual address: directory and table entry must both be open to user
      mode. */
  function UserByteAt(mem: seq<Frame>, pd: nat, a: nat): Option<Byte>
    requires pd < |mem| && a < WORD
  {
    if ForUser(mem[pd][a / 4096 / 1024]) && ForUser(WalkIn(mem, pd, a / 4096)) then ByteAt(mem, pd, a) else None
  }

  function StoreByte(mem: seq<Frame>, pd: nat, a: nat, b: Byte): (r: Option<seq<Frame>>)
    requires pd < |mem| && a < WORD
    ensures r.Some? ==> |r.value| == |mem|
  {
    var e := WalkIn(mem, pd, a / 4096);
    var f := FrameOf(e);
    if e == 0 || f >= |mem| then None else Some(mem[f := SaveByte(mem[f], a % 4096, b)])
  }

  /** Present, writable and open to user mode: what a program's store needs of the directory entry and of the
      table entry (Intel SDM Vol. 3A, section 4.6). */
  predicate OpenToWrites(entry: nat) {
    Present(entry) && Writable(entry) && ForUser(entry)
  }

  /** The same that only the kernel can use. */
  predicate KernelOnly(entry: nat) {
    Present(entry) && Writable(entry) && !ForUser(entry)
  }

  /** A program's store at a virtual address, `None` for a page fault. */
  function UserStoreByte(mem: seq<Frame>, pd: nat, a: nat, b: Byte): (r: Option<seq<Frame>>)
    requires pd < |mem| && a < WORD
    ensures r.Some? ==> |r.value| == |mem|
  {
    if OpenToWrites(mem[pd][a / 4096 / 1024]) && OpenToWrites(WalkIn(mem, pd, a / 4096)) then StoreByte(mem, pd, a, b)
    else None
  }

  /** Memory after the first `n` bytes are stored, one by one, from address `a` on. */
  function StoreAll(mem: seq<Frame>, pd: nat, a: nat, bytes: seq<Byte>, n: nat): (r: Option<seq<Frame>>)
    requires pd < |mem| && n <= |bytes| && a + n <= WORD
    ensures r.Some? ==> |r.value| == |mem|
    decreases n
  {
    if n == 0 then Some(mem)
    else
      match StoreAll(mem, pd, a, bytes, n - 1)
      case None => None
      case Some(m) => StoreByte(m, pd, a + n - 1, bytes[n - 1])
  }

  lemma NothingStored(mem: seq<Frame>, pd: nat, a: nat, bytes: seq<Byte>)
    requires pd < |mem| && a <= WORD
    ensures StoreAll(mem, pd, a, bytes, 0) == Some(mem)
  {
  }

  // ----- windows backed by frames of their own -----

  /** A user page with frame `f`, which is in use, is no table and is not one of `base`. */
  ghost predicate DataPage(base: set<nat>, s: Sys, page: nat, f: nat) {
    && Shape(s) && LOW <= page < PAGES && f < |s.mem|
    && FrameOf(Walk(s, page)) == f && Flags(Walk(s, page)) == USER_FLAGS
    && f in s.used && f !in base && NotTable(s, f)
  }

  ghost predicate PageBacked(base: set<nat>, s: Sys, w: Window, i: nat) {
    i < |w.frames| ==> DataPage(base, s, w.first + i, w.frames[i])
  }

  /** Every page of the window is such a page, no two with the same frame. */
  ghost predicate Backed(base: set<nat>, s: Sys, w: Window) {
    && LOW <= w.first && w.first + |w.frames| <= PAGES
    && (forall i: nat :: PageBacked(base, s, w, i))
    && (forall i: nat, j: nat :: Differ(w.frames, i, j))
  }

  lemma BackedDistinct(base: set<nat>, s: Sys, w: Window)
    requires Backed(base, s, w)
    ensures Distinct(w.frames, |s.mem|)
  {
    forall i: nat
      ensures Below(w.frames, |s.mem|, i)
    {
      assert PageBacked(base, s, w, i);
    }
  }

  /** The window's frames are in use, are no tables and are not in `base`. */
  lemma BackedAvoids(base: set<nat>, s: Sys, w: Window, g: nat)
    requires Shape(s) && Backed(base, s, w) && (!NotTable(s, g) || g in base || g !in s.used)
    ensures g !in w.frames
  {
    forall i: nat | i < |w.frames|
      ensures w.frames[i] != g
    {
      assert PageBacked(base, s, w, i);
    }
  }

  ghost predicate SameFrame(mem: seq<Frame>, m: seq<Frame>, frames: seq<nat>, g: nat)
    requires |m| == |mem|
  {
    g < |mem| && g !in frames ==> m[g] == mem[g]
  }

  /** Memory that differs from `mem` in frames of the window only. */
  ghost predicate OnlyWindow(mem: seq<Frame>, w: Window, m: seq<Frame>) {
    |m| == |mem| && forall g: nat :: SameFrame(mem, m, w.frames, g)
  }

  lemma TranslationKept(base: set<nat>, s: Sys, w: Window, m: seq<Frame>, page: nat)
    requires Inv(s) && Backed(base, s, w) && OnlyWindow(s.mem, w, m) && page < PAGES
    ensures WalkIn(m, s.pd, page) == Walk(s, page)
  {
    BackedAvoids(base, s, w, s.pd);
    assert SameFrame(s.mem, m, w.frames, s.pd);
    var pde := Pde(s, page / 1024);
    if Present(pde) {
      assert !NotTableAt(s, FrameOf(pde), page / 1024);
      BackedAvoids(base, s, w, FrameOf(pde));
      assert SameFrame(s.mem, m, w.frames, FrameOf(pde));
    }
  }

  /** The frame a translation through the window ends in. */
  lemma WindowWalk(base: set<nat>, s: Sys, w: Window, m: seq<Frame>, a: nat)
    requires Inv(s) && Backed(base, s, w) && OnlyWindow(s.mem, w, m) && Covers(w, a, 1)
    ensures a < WORD && FrameBehind(w, a) < |m|
    ensures WalkIn(m, s.pd, a / 4096) != 0 && FrameOf(WalkIn(m, s.pd, a / 4096)) == FrameBehind(w, a)
  {
    assert PageBacked(base, s, w, a / 4096 - w.first);
    TranslationKept(base, s, w, m, a / 4096);
  }

  lemma StoreIsPut(base: set<nat>, s: Sys, w: Window, m: seq<Frame>, a: nat, b: Byte)
    requires Inv(s) && Backed(base, s, w) && OnlyWindow(s.mem, w, m) && Covers(w, a, 1)
    ensures a < WORD && StoreByte(m, s.pd, a, b) == Some(Put(w, m, a, b))
  {
    WindowWalk(base, s, w, m, a);
  }

  /** The processor's read through a backed window. */
  lemma ReadIsGet(base: set<nat>, s: Sys, w: Window, m: seq<Frame>, a: nat)
    requires Inv(s) && Backed(base, s, w) && OnlyWindow(s.mem, w, m) && Covers(w, a, 1)
    ensures a < WORD && ByteAt(m, s.pd, a) == Some(Get(w, m, a))
  {
    WindowWalk(base, s, w, m, a);
  }

  /** A user page is read in user mode as in kernel mode. */
  lemma UserReads(base: set<nat>, s: Sys, page: nat, f: nat, a: nat)
    requires Inv(s) && DataPage(base, s, page, f) && page == a / 4096
    ensures a < WORD && UserByteAt(s.mem, s.pd, a) == ByteAt(s.mem, s.pd, a)
  {
    assert TableSound(s, page / 1024);
  }

  lemma PutAllOnlyWindow(mem: seq<Frame>, w: Window, m: seq<Frame>, a: nat, bytes: seq<Byte>, n: nat)
    requires OnlyWindow(mem, w, m) && n <= |bytes| && Covers(w, a, n)
    ensures OnlyWindow(mem, w, PutAll(w, m, a, bytes, n))
  {
    forall g: nat
      ensures SameFrame(mem, PutAll(w, m, a, bytes, n), w.frames, g)
    {
      assert SameFrame(mem, m, w.frames, g);
      if g < |mem| && g !in w.frames {
        PutAllElsewhere(w, m, a, bytes, n, g);
      }
    }
  }

  /** Stores through a backed window do not fault and land in the window's frames. */
  lemma {:induction false} StoreAllIsPutAll(base: set<nat>, s: Sys, w: Window, mem: seq<Frame>,
                                            a: nat, bytes: seq<Byte>, n: nat)
    requires Inv(s) && Backed(base, s, w) && OnlyWindow(s.mem, w, mem) && n <= |bytes| && Covers(w, a, n)
    ensures a + n <= WORD && StoreAll(mem, s.pd, a, bytes, n) == Some(PutAll(w, mem, a, bytes, n))
    decreases n
  {
    hide StoreByte, Put, Inv, PageBacked, OnlyWindow;
    if n > 0 {
      StoreAllIsPutAll(base, s, w, mem, a, bytes, n - 1);
      PutAllOnlyWindow(s.mem, w, mem, a, bytes, n - 1);
      StoreIsPut(base, s, w, PutAll(w, mem, a, bytes, n - 1), a + n - 1, bytes[n - 1]);
    }
  }

  // ----- writing data leaves paging alone -----

  lemma DataNotTable(base: set<nat>, s: Sys, w: Window, m: seq<Frame>, g: nat)
    requires Inv(s) && Backed(base, s, w) && OnlyWindow(s.mem, w, m) && NotTable(s, g)
    ensures NotTable(s.(mem := m), g)
  {
    BackedAvoids(base, s, w, s.pd);
    assert SameFrame(s.mem, m, w.frames, s.pd);
    forall i: nat | i < 1024
      ensures NotTableAt(s.(mem := m), g, i)
    {
      assert NotTableAt(s, g, i);
    }
  }

  lemma DataInv(base: set<nat>, s: Sys, w: Window, m: seq<Frame>)
    requires Inv(s) && Backed(base, s, w) && OnlyWindow(s.mem, w, m)
    ensures Inv(s.(mem := m)) && Tables(s.(mem := m)) == Tables(s)
  {
    var t := s.(mem := m);
    BackedAvoids(base, s, w, s.pd);
    assert SameFrame(s.mem, m, w.frames, s.pd);
    forall i: nat | i < 1024
      ensures TableSound(t, i)
    {
      assert TableSound(s, i);
    }
    forall i: nat, j: nat | i < 1024 && j < 1024
      ensures TablesDiffer(t, i, j)
    {
      assert TablesDiffer(s, i, j);
    }
    forall p: nat | p < LOW
      ensures IdentityAt(t, p)
    {
      TranslationKept(base, s, w, m, p);
      assert IdentityAt(s, p);
    }
    forall f: nat
      ensures InRange(t, f)
    {
      assert InRange(s, f);
    }
  }

  /** Writes into the window change no used frame of `base` and no table. */
  lemma DataGrew(s: Sys, t: Sys, w: Window, m: seq<Frame>)
    requires Grew(s, t) && Inv(t) && Backed(s.used, t, w) && OnlyWindow(t.mem, w, m)
    ensures Grew(s, t.(mem := m))
  {
    DataInv(s.used, t, w, m);
    BackedAvoids(s.used, t, w, t.pd);
    assert SameFrame(t.mem, m, w.frames, t.pd);
    forall i: nat | i < 1024
      ensures StaysPresent(s, t.(mem := m), i)
    {
      assert StaysPresent(s, t, i);
    }
    forall g: nat
      ensures Kept(s, t.(mem := m), g)
    {
      assert Kept(s, t, g);
      assert SameFrame(t.mem, m, w.frames, g);
      if g in s.used && NotTable(s, g) && g < |s.mem| {
        BackedAvoids(s.used, t, w, g);
        DataNotTable(s.used, t, w, m, g);
      }
    }
  }

  /** The same for growth in which nothing but what was taken is mapped. */
  lemma DataExtends(s: Sys, t: Sys, w: Window, m: seq<Frame>)
    requires Extends(s, t) && Inv(t) && Backed(s.used, t, w) && OnlyWindow(t.mem, w, m)
    ensures Extends(s, t.(mem := m))
  {
    var u := t.(mem := m);
    DataGrew(s, t, w, m);
    forall p: nat | LOW <= p < PAGES
      ensures NewOrSame(s, u, p)
    {
      assert NewOrSame(s, t, p);
      TranslationKept(s.used, t, w, m, p);
      if DataFrame(t, FrameOf(Walk(t, p))) {
        DataNotTable(s.used, t, w, m, FrameOf(Walk(t, p)));
      }
    }
    forall p: nat, q: nat | LOW <= p < PAGES && LOW <= q < PAGES
      ensures NewApart(s, u, p, q)
    {
      assert NewApart(s, t, p, q);
      TranslationKept(s.used, t, w, m, p);
      TranslationKept(s.used, t, w, m, q);
    }
    forall f: nat
      ensures NewBelow(s, u, f)
    {
      assert NewBelow(s, t, f);
    }
  }

  // ----- allocating and mapping a run of pages -----

  /** How an operation that allocates ends. `Strayed`: it returns normally, but the stores to a page
      table have gone to another frame. `OutOfFrames`: the allocator returned NULL and the operation
      reports failure. `Stopped`: the processor is halted for want of a table frame, or a page fault. */
  datatype Outcome = Next(s: Sys) | Strayed(s: Sys) | OutOfFrames(s: Sys) | Stopped

  lemma TakenSane(s: Sys)
    requires Sane(s) && LeastFree(s) < |s.mem|
    ensures Sane(Taken(s))
  {
    TakenExtends(s);
    TidyStays(s, Taken(s));
  }

  /** Allocate a frame and map it, user-accessible, at `page`. */
  function MapNew(s: Sys, page: nat): (o: Outcome)
    requires Sane(s) && LOW <= page < PAGES
  {
    var f := LeastFree(s);
    if f == |s.mem| then OutOfFrames(s)
    else
      TakenKeeps(s);
      match MapPage(Taken(s), page, Entry(f, USER_FLAGS))
      case Mapped(t) => Next(t)
      case Astray(t) => Strayed(t)
      case NoFrame => Stopped
      case Fault => Stopped
  }

  /** A refused allocation changes nothing. */
  lemma MapNewRefused(s: Sys, page: nat)
    requires Sane(s) && LOW <= page < PAGES
    ensures MapNew(s, page).OutOfFrames? ==> MapNew(s, page).s == s && LeastFree(s) == |s.mem|
  {
  }

  /** What mapping a fresh frame at `page` has done. */
  ghost predicate MappedFresh(s: Sys, t: Sys, page: nat, f: nat) {
    && Extends(s, t) && f !in s.used && DataPage(s.used, t, page, f)
    && forall p: nat :: p < PAGES && p != page ==> SameWalk(s, t, p)
  }

  lemma FreshIsData(base: set<nat>, t: Sys, u: Sys, page: nat, f: nat)
    requires Inv(t) && f < |t.mem| && f in t.used && f !in base && NotTable(t, f) && Grew(t, u)
    requires LOW <= page < PAGES && Walk(u, page) == Lookup(Entry(f, USER_FLAGS))
    ensures DataPage(base, u, page, f)
  {
    assert Kept(t, u, f);
  }

  lemma FreshExtends(s: Sys, u: Sys, page: nat, f: nat, g: nat)
    requires Inv(s) && Grew(s, u) && DataPage(s.used, u, page, f) && Private(s, f)
    requires forall p: nat :: p < PAGES && p != page ==> SameWalk(s, u, p)
    requires f < LeastFree(u) && (g in u.used ==> g < LeastFree(u)) && u.used <= s.used + {f, g}
    ensures Extends(s, u)
  {
    forall p: nat | LOW <= p < PAGES
      ensures NewOrSame(s, u, p)
    {
      assert p != page ==> SameWalk(s, u, p);
    }
    forall p: nat, q: nat | LOW <= p < PAGES && LOW <= q < PAGES
      ensures NewApart(s, u, p, q)
    {
      assert p != page ==> SameWalk(s, u, p);
      assert (q != page ==> SameWalk(s, u, q)) && NotLeading(s, q, f);
    }
    forall h: nat
      ensures NewBelow(s, u, h)
    {
    }
  }

  lemma MapNewIsMapped(s: Sys, page: nat, u: Sys)
    requires Sane(s) && LOW <= page < PAGES && MapNew(s, page) == Next(u)
    ensures LeastFree(s) < |s.mem| && Sane(Taken(s)) && InWindow(Taken(s), page)
    ensures MapPage(Taken(s), page, Entry(LeastFree(s), USER_FLAGS)) == Mapped(u)
  {
    TakenSane(s);
    MapPageSucceeds(Taken(s), page, Entry(LeastFree(s), USER_FLAGS));
  }

  lemma MapNewUsed(s: Sys, page: nat, u: Sys)
    requires Sane(s) && LOW <= page < PAGES && MapNew(s, page) == Next(u)
    ensures |u.mem| == |s.mem| && LeastFree(s) < LeastFree(u)
    ensures var g := LeastFree(Taken(s));
            u.used <= s.used + {LeastFree(s), g} && (g in u.used ==> g < LeastFree(u))
  {
    var f, t := LeastFree(s), Taken(s);
    MapNewIsMapped(s, page, u);
    MapPageUsed(t, page, Entry(f, USER_FLAGS), u);
    MapPageKeeps(t, page, Entry(f, USER_FLAGS), u);
    TakenIsBelow(s, f, u);
    if LeastFree(t) in u.used {
      assert InRange(u, LeastFree(t));
      TakenIsBelow(t, LeastFree(t), u);
    }
  }

  lemma MapNewKeeps(s: Sys, page: nat, u: Sys)
    requires Sane(s) && LOW <= page < PAGES && MapNew(s, page) == Next(u)
    ensures MappedFresh(s, u, page, LeastFree(s))
  {
    var f, t := LeastFree(s), Taken(s);
    var entry := Entry(f, USER_FLAGS);
    MapNewIsMapped(s, page, u);
    TakenKeeps(s);
    MapPageKeeps(t, page, entry, u);
    GrewTransitive(s, t, u);
    MapPageUpdatesOneKey(t, page, entry, u, page);
    FreshIsData(s.used, t, u, page, f);
    forall p: nat | p < PAGES && p != page
      ensures SameWalk(s, u, p)
    {
      MapPageUpdatesOneKey(t, page, entry, u, p);
    }
    MapNewUsed(s, page, u);
    FreshIsPrivate(s, f);
    FreshExtends(s, u, page, f, LeastFree(t));
  }

  lemma FromTaken(s: Sys, t: Sys, u: Sys, i: nat)
    requires Shape(s) && Shape(t) && Shape(u) && |u.mem| == |s.mem| && s.used <= t.used <= u.used
    requires Tables(t) == Tables(s) && |t.used| == |s.used| + 1
    requires Tables(u) == Tables(t) + {i} && |u.used| == |t.used| + if i in Tables(t) then 0 else 1
    ensures Took(s, u, 1, {i})
  {
    WithOne(Tables(s), i);
    assert {i} - Tables(s) == if i in Tables(s) then {} else {i};
  }

  /** One data frame, and a table where it was missing. */
  lemma MapNewTook(s: Sys, page: nat, u: Sys)
    requires Sane(s) && LOW <= page < PAGES && MapNew(s, page) == Next(u)
    ensures Took(s, u, 1, {page / 1024})
  {
    hide MapNew, MapPage, Took, Tables, Sane, TableSound;
    MapNewIsMapped(s, page, u);
    SaneMeans(s);
    SaneMeans(Taken(s));
    TakenKeeps(s);
    MapPageFrames(Taken(s), page, Entry(LeastFree(s), USER_FLAGS), u);
    MapPageKeeps(Taken(s), page, Entry(LeastFree(s), USER_FLAGS), u);
    FromTaken(s, Taken(s), u, page / 1024);
  }

  /** It fails or strays only when low frames are short; once it has strayed, none is left. */
  lemma MapNewShort(s: Sys, page: nat)
    requires Sane(s) && LOW <= page < PAGES && !MapNew(s, page).Next?
    ensures Short(s, 1, {page / 1024})
    ensures MapNew(s, page).Strayed? ==> Spare(MapNew(s, page).s) == 0
  {
    hide Short, Spare, MapPage, Sane, InWindow, Tables;
    SaneMeans(s);
    LeastFreeIsLow(s);
    if LeastFree(s) == |s.mem| {
      NoneToSpare(s, {page / 1024});
    } else {
      TakenSane(s);
      TableShort(s, Taken(s), page, Entry(LeastFree(s), USER_FLAGS));
    }
  }

  lemma TableShort(s: Sys, t: Sys, page: nat, entry: nat)
    requires Inv(s) && LeastFree(s) < |s.mem| && t == Taken(s) && Sane(t)
    requires page < PAGES && entry < WORD && !MapPage(t, page, entry).Mapped?
    ensures Short(s, 1, {page / 1024})
    ensures MapPage(t, page, entry).Astray? ==> Spare(MapPage(t, page, entry).s) == 0
  {
    hide Short, Spare, MapPage, Sane, InWindow, Tables, Taken;
    SaneMeans(t);
    TakenKeeps(s);
    MapPageSucceeds(t, page, entry);
    WindowBySpare(t, page);
    OneToSpare(s, t, page / 1024);
    if MapPage(t, page, entry).Astray? {
      AstrayUsed(t, page, entry);
      SpareShrinks(t, MapPage(t, page, entry).s);
    }
  }

  lemma SaneMeans(s: Sys)
    requires Sane(s)
    ensures Inv(s) && Tidy(s) && Shape(s)
  {
  }

  lemma AstrayUsed(s: Sys, page: nat, entry: nat)
    requires Inv(s) && page < PAGES && entry < WORD && MapPage(s, page, entry).Astray?
    ensures var t := MapPage(s, page, entry).s; s.used <= t.used && |t.mem| == |s.mem|
  {
    hide TableThrough, Walk;
  }

  lemma NoneToSpare(s: Sys, dirs: set<nat>)
    requires Shape(s) && Spare(s) == 0
    ensures Short(s, 1, dirs)
  {
  }

  lemma OneToSpare(s: Sys, t: Sys, i: nat)
    requires Shape(s) && Shape(t) && s.used <= t.used && |t.mem| == |s.mem| && |t.used| == |s.used| + 1
    requires Tables(t) == Tables(s) && i !in Tables(t) && Spare(t) == 0
    ensures Short(s, 1, {i})
  {
    SpareShrinks(s, t);
    assert {i} - Tables(s) == {i};
  }

  // ----- memory that user pages do not cover -----

  ghost predicate UnmappedAt(s: Sys, page: nat)
    requires Shape(s) && page < PAGES
  {
    Walk(s, page) == 0
  }

  /** No page from 8 MB to the end of memory is mapped. */
  ghost predicate Quiet(s: Sys) {
    Shape(s) && forall p: nat :: LOW <= p < |s.mem| ==> UnmappedAt(s, p)
  }

  /** Then no store of the kernel goes astray. */
  lemma QuietNeverStrays(s: Sys, page: nat)
    requires Sane(s) && Quiet(s) && LOW <= page < PAGES
    ensures !MapNew(s, page).Strayed?
  {
    if LeastFree(s) < |s.mem| {
      var t := Taken(s);
      TakenSane(s);
      MapPageSucceeds(t, page, Entry(LeastFree(s), USER_FLAGS));
      if LOW <= LeastFree(t) < |s.mem| {
        assert UnmappedAt(s, LeastFree(t));
      }
    }
  }

  /** A data page stays one when its translation stays. */
  lemma DataPageKept(base: set<nat>, s: Sys, t: Sys, page: nat, f: nat)
    requires Grew(s, t) && DataPage(base, s, page, f) && SameWalk(s, t, page)
    ensures DataPage(base, t, page, f) && t.mem[f] == s.mem[f]
  {
    assert Kept(s, t, f);
  }

  lemma PageBackedKept(base: set<nat>, s: Sys, t: Sys, w: Window, i: nat)
    requires Grew(s, t) && Backed(base, s, w) && i < |w.frames| && SameWalk(s, t, w.first + i)
    ensures PageBacked(base, t, w, i)
  {
    assert PageBacked(base, s, w, i);
    DataPageKept(base, s, t, w.first + i, w.frames[i]);
  }

  lemma BackedExtend(base: set<nat>, s: Sys, t: Sys, w: Window, page: nat, f: nat)
    requires Inv(s) && Backed(base, s, w) && MappedFresh(s, t, page, f)
    requires page == w.first + |w.frames| && base <= s.used
    ensures Backed(base, t, Window(w.first, w.frames + [f]))
  {
    var x := Window(w.first, w.frames + [f]);
    forall i: nat
      ensures PageBacked(base, t, x, i)
    {
      if i < |w.frames| {
        assert SameWalk(s, t, w.first + i);
        PageBackedKept(base, s, t, w, i);
      }
    }
    BackedAvoids(base, s, w, f);
    forall i: nat, j: nat
      ensures Differ(x.frames, i, j)
    {
      assert Differ(w.frames, i, j);
    }
  }

  /** What mapping a range has done: every page of it has a frame of its own, no used frame that is
      no table has changed, no translation outside the range has changed. */
  ghost predicate RangeMapped(s: Sys, t: Sys, first: nat, frames: seq<nat>) {
    && Extends(s, t) && Backed(s.used, t, Window(first, frames))
    && forall p: nat :: p < PAGES && !(first <= p < first + |frames|) ==> SameWalk(s, t, p)
  }

  lemma RangeMappedNone(s: Sys, first: nat)
    requires Inv(s) && LOW <= first <= PAGES
    ensures RangeMapped(s, s, first, [])
  {
    ExtendsItself(s);
  }

  lemma RangeMappedExtend(s: Sys, t: Sys, u: Sys, first: nat, frames: seq<nat>, page: nat, f: nat)
    requires Inv(t) && RangeMapped(s, t, first, frames) && MappedFresh(t, u, page, f) && page == first + |frames|
    ensures RangeMapped(s, u, first, frames + [f])
  {
    ExtendsTransitive(s, t, u);
    BackedExtend(s.used, t, u, Window(first, frames), page, f);
    forall p: nat | p < PAGES && !(first <= p < first + |frames| + 1)
      ensures SameWalk(s, u, p)
    {
      assert SameWalk(s, t, p) && SameWalk(t, u, p);
    }
  }

  /** The directory entries for a range of pages. */
  function RangeTables(first: nat, n: nat): set<nat>
    decreases n
  {
    if n == 0 then {} else RangeTables(first, n - 1) + {(first + n - 1) / 1024}
  }

  lemma {:induction false} RangeTablesGrow(first: nat, k: nat, n: nat)
    requires k <= n
    ensures RangeTables(first, k) <= RangeTables(first, n)
    decreases n
  {
    if k < n {
      RangeTablesGrow(first, k, n - 1);
    }
  }

  lemma RangeTablesNext(first: nat, n: nat, page: nat)
    requires page == first + n
    ensures RangeTables(first, n + 1) == RangeTables(first, n) + {page / 1024}
  {
  }

  lemma OneMorePage(s: Sys, t: Sys, u: Sys, first: nat, frames: seq<nat>, n: nat, page: nat)
    requires Sane(t) && RangeMapped(s, t, first, frames) && n == |frames| && page == first + n
    requires LOW <= page < PAGES && MapNew(t, page) == Next(u)
    requires Took(s, t, n, RangeTables(first, n))
    ensures RangeMapped(s, u, first, frames + [LeastFree(t)]) && Sane(u)
    ensures Took(s, u, n + 1, RangeTables(first, n + 1))
  {
    hide MapNew, Took, RangeTables, RangeMapped, Extends, Inv, Tidy, DataPage;
    MapNewKeeps(t, page, u);
    MapNewTook(t, page, u);
    RangeMappedExtend(s, t, u, first, frames, page, LeastFree(t));
    TidyStays(t, u);
    TookInTwoSteps(s, t, u, n, RangeTables(first, n), 1, {page / 1024});
    RangeTablesNext(first, n, page);
  }

  /** A page that cannot be had makes the whole range short. */
  lemma RangeShort(s: Sys, t: Sys, first: nat, k: nat, n: nat, page: nat)
    requires Sane(t) && Took(s, t, k, RangeTables(first, k)) && k < n && page == first + k
    requires LOW <= page < PAGES && !MapNew(t, page).Next?
    ensures Shape(s) && Short(s, n, RangeTables(first, n))
  {
    hide MapNew, RangeTables, Short, Sane, Tables;
    SaneMeans(t);
    MapNewShort(t, page);
    ShortEarlier(s, t, k, RangeTables(first, k), 1, {page / 1024});
    RangeTablesNext(first, k, page);
    RangeTablesGrow(first, k + 1, n);
    ShortMore(s, k + 1, RangeTables(first, k + 1), n, RangeTables(first, n));
  }

  lemma RangeQuiet(s: Sys, t: Sys, first: nat, frames: seq<nat>)
    requires RangeMapped(s, t, first, frames) && Quiet(s) && |s.mem| <= first
    ensures Quiet(t)
  {
    forall p: nat | LOW <= p < |t.mem|
      ensures UnmappedAt(t, p)
    {
      assert UnmappedAt(s, p) && SameWalk(s, t, p);
    }
  }

  /** The state of a loop that maps new pages from `first` on, none of whose stores has gone astray. */
  ghost predicate PartMapped(s: Sys, t: Sys, first: nat, frames: seq<nat>) {
    Sane(t) && RangeMapped(s, t, first, frames) && Took(s, t, |frames|, RangeTables(first, |frames|))
  }

  lemma PartMappedNone(s: Sys, first: nat)
    requires Sane(s) && LOW <= first <= PAGES
    ensures PartMapped(s, s, first, [])
  {
    RangeMappedNone(s, first);
    assert {} - Tables(s) == {} && Tables(s) == Tables(s) + {};
  }

  /** Where the table is there, only a full memory refuses a page. */
  lemma MapNewWithTable(s: Sys, page: nat)
    requires Sane(s) && LOW <= page < PAGES && page / 1024 in Tables(s)
    ensures MapNew(s, page).Next? || (MapNew(s, page) == OutOfFrames(s) && |s.used| == |s.mem|)
  {
    UsedInRange(s);
    if LeastFree(s) < |s.mem| {
      TakenSane(s);
      MapPageSucceeds(Taken(s), page, Entry(LeastFree(s), USER_FLAGS));
    }
  }

  lemma TookWithTables(s: Sys, t: Sys, n: nat, dirs: set<nat>)
    requires Took(s, t, n, dirs) && dirs <= Tables(s)
    ensures Tables(t) == Tables(s) && |t.used| == |s.used| + n
  {
    assert dirs - Tables(s) == {} && Tables(s) + dirs == Tables(s);
  }

  lemma RangeWithTables(s: Sys, t: Sys, first: nat, k: nat, n: nat, page: nat)
    requires Sane(t) && Took(s, t, k, RangeTables(first, k)) && k < n && page == first + k && LOW <= page < PAGES
    requires RangeTables(first, n) <= Tables(s)
    ensures MapNew(t, page).Next? || (MapNew(t, page).OutOfFrames? && |s.mem| < |s.used| + n)
  {
    hide MapNew, RangeTables, Sane, Tables;
    RangeTablesNext(first, k, page);
    RangeTablesGrow(first, k, n);
    RangeTablesGrow(first, k + 1, n);
    TookWithTables(s, t, k, RangeTables(first, k));
    MapNewWithTable(t, page);
  }

  /** One round of such a loop, which is to map `n` pages. */
  lemma MapStep(s: Sys, t: Sys, first: nat, frames: seq<nat>, n: nat, page: nat)
    requires PartMapped(s, t, first, frames) && |frames| < n && page == first + |frames| && LOW <= page < PAGES
    ensures Sane(t)
    ensures Shape(s)
    ensures var o := MapNew(t, page);
            && (o.Next? ==> PartMapped(s, o.s, first, frames + [LeastFree(t)]))
            && (!o.Next? ==> Short(s, n, RangeTables(first, n)))
            && (o.OutOfFrames? ==> o.s == t && LeastFree(t) == |t.mem| && Extends(s, t))
            && (Quiet(s) && |s.mem| <= first ==> !o.Strayed? && Quiet(t))
            && (RangeTables(first, n) <= Tables(s) ==> o.Next? || (o.OutOfFrames? && |s.mem| < |s.used| + n))
  {
    hide MapNew, RangeTables, Extends, Inv, Tidy, DataPage, Short, Quiet, Tables;
    MapNewRefused(t, page);
    if MapNew(t, page).Next? {
      OneMorePage(s, t, MapNew(t, page).s, first, frames, |frames|, page);
    } else {
      RangeShort(s, t, first, |frames|, n, page);
    }
    if RangeTables(first, n) <= Tables(s) {
      RangeWithTables(s, t, first, |frames|, n, page);
    }
    if Quiet(s) && |s.mem| <= first {
      RangeQuiet(s, t, first, frames);
      QuietNeverStrays(t, page);
    }
  }

  // ----- what a program can write -----

  /** The entry a mapping leaves is the one it was given. */
  lemma MappedReads(s: Sys, page: nat, entry: nat, t: Sys)
    requires Sane(s) && page < PAGES && entry < WORD && MapPage(s, page, entry) == Mapped(t)
    ensures Shape(t) && Walk(t, page) == Lookup(entry)
    ensures LOW <= page ==> Inv(t) && Flags(Pde(t, page / 1024)) == USER_FLAGS
  {
    hide MapPage, Walk;
    MapPageSucceeds(s, page, entry);
    MapPageUpdatesOneKey(s, page, entry, t, page);
    if LOW <= page {
      MapPageKeeps(s, page, entry, t);
      MappedHasTable(s, page, entry, t);
      assert TableSound(t, page / 1024);
    }
  }

  lemma MappedHasTable(s: Sys, page: nat, entry: nat, t: Sys)
    requires Inv(s) && page < PAGES && entry < WORD && InWindow(s, page) && MapPage(s, page, entry) == Mapped(t)
    requires Shape(t)
    ensures Present(Pde(t, page / 1024))
  {
    hide Walk, Tidy;
    if Present(Pde(s, page / 1024)) {
      PutEntryDirectory(s, page, entry, page / 1024);
    } else {
      LowTableFrame(s, page);
      TableThroughIsAddTable(s, page, entry, LeastFree(s));
      AddTableDirectory(s, page / 1024, LeastFree(s), page / 1024);
    }
  }

  /** The entries with the user's flags are open to a program's stores, those with the kernel's are not. */
  lemma FlagsMean(entry: nat)
    ensures Flags(entry) == USER_FLAGS ==> OpenToWrites(entry) && entry % 4096 == 7
    ensures Flags(entry) == KERNEL_FLAGS ==> KernelOnly(entry) && entry % 4096 == 3
  {
  }

  /** The first 8 MB are the kernel's: a program can neither read nor write there. */
  lemma LowIsClosed(s: Sys, a: nat, b: Byte)
    requires Inv(s) && a < 0x80_0000
    ensures KernelOnly(Walk(s, a / 4096))
    ensures UserByteAt(s.mem, s.pd, a) == None && UserStoreByte(s.mem, s.pd, a, b) == None
  {
    assert IdentityAt(s, a / 4096);
    FlagsMean(Walk(s, a / 4096));
  }

  lemma StoredFrame(s: Sys, a: nat, b: Byte, f: nat, mem: seq<Frame>)
    requires Inv(s) && a < WORD && DataPage({}, s, a / 4096, f) && mem == s.mem[f := SaveByte(s.mem[f], a % 4096, b)]
    ensures UserStoreByte(s.mem, s.pd, a, b) == Some(mem)
  {
    hide SaveByte;
    assert TableSound(s, a / 4096 / 1024);
    FlagsMean(Pde(s, a / 4096 / 1024));
    FlagsMean(Walk(s, a / 4096));
  }

  /** What is read at any address after a store to a page of data. */
  lemma StoredReads(s: Sys, a: nat, b: Byte, f: nat, mem: seq<Frame>, c: nat)
    requires Sane(s) && a < WORD && DataPage({}, s, a / 4096, f) && mem == s.mem[f := SaveByte(s.mem[f], a % 4096, b)]
    requires c < WORD
    ensures s.pd < |mem|
    ensures UserByteAt(mem, s.pd, c) == if c == a then Some(b) else UserByteAt(s.mem, s.pd, c)
  {
    hide SaveByte, TableSound, TablesDiffer;
    var p, q := a / 4096, c / 4096;
    TranslationOutside(s, f, SaveByte(s.mem[f], a % 4096, b), q);
    if q < LOW {
      assert IdentityAt(s, q);
      FlagsMean(Walk(s, q));
    } else if q == p {
      SaveThenLoad(s.mem[f], a % 4096, b, c % 4096);
      UserReads({}, s, p, f, a);
      ReadsThrough(s, mem, p, f, c);
      SameOffset(a, c);
    } else {
      assert PagesApart(s, p, q);
    }
  }

  lemma SameOffset(a: nat, c: nat)
    requires a / 4096 == c / 4096
    ensures a % 4096 == c % 4096 <==> a == c
  {
  }

  /** A program's read on a page of data. */
  lemma ReadsThrough(s: Sys, mem: seq<Frame>, page: nat, f: nat, c: nat)
    requires Inv(s) && DataPage({}, s, page, f) && c < WORD && c / 4096 == page && |mem| == |s.mem|
    requires mem[s.pd] == s.mem[s.pd] && WalkIn(mem, s.pd, page) == Walk(s, page)
    ensures UserByteAt(mem, s.pd, c) == Some(LoadByte(mem[f], c % 4096))
    ensures UserByteAt(s.mem, s.pd, c) == Some(LoadByte(s.mem[f], c % 4096))
  {
    hide LoadByte;
    assert TableSound(s, page / 1024);
    FlagsMean(Pde(s, page / 1024));
    FlagsMean(Walk(s, page));
  }

  /** What a program's store at `a` does: it goes through, the byte reads back, and what is read at any other
      address stays as it was. */
  ghost predicate Stores(s: Sys, a: nat, b: Byte) {
    && s.pd < |s.mem| && a < WORD && UserStoreByte(s.mem, s.pd, a, b).Some?
    && var mem := UserStoreByte(s.mem, s.pd, a, b).value;
       Sane(s.(mem := mem)) && forall c: nat :: c < WORD ==> ReadsStored(s, mem, a, b, c)
  }

  ghost predicate ReadsStored(s: Sys, mem: seq<Frame>, a: nat, b: Byte, c: nat)
    requires c < WORD
  {
    && s.pd < |s.mem| && s.pd < |mem|
    && UserByteAt(mem, s.pd, c) == if c == a then Some(b) else UserByteAt(s.mem, s.pd, c)
  }

  /** On a sane machine a program can store at every address of its pages of data. */
  lemma ProgramStores(s: Sys, a: nat, b: Byte, f: nat)
    requires Sane(s) && a < WORD && DataPage({}, s, a / 4096, f)
    ensures Stores(s, a, b)
  {
    hide SaveByte, UserByteAt, UserStoreByte, Sane;
    SaneMeans(s);
    var mem := s.mem[f := SaveByte(s.mem[f], a % 4096, b)];
    StoredFrame(s, a, b, f, mem);
    forall c: nat | c < WORD
      ensures ReadsStored(s, mem, a, b, c)
    {
      StoredReads(s, a, b, f, mem, c);
    }
    WrittenSane(s, f, mem[f]);
    assert s.(mem := mem) == s.(mem := s.mem[f := mem[f]]);
  }
}
