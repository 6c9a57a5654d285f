/** Physical memory as an array of 4 KiB frames, and the two-level page walk over it
    (Intel SDM Vol. 3A, section 4.3: 32-bit paging). */
module Paging {
  import opened Words
  import opened Options
  import Pmm

  type Frame = f: seq<Word32> | |f| == 1024 witness seq(1024, _ => 0)

  const PAGES: nat := 0x10_0000          // virtual pages
  const LOW: nat := 2048                 // pages below 8 MB, the identity window

  // ----- directory and table entries -----

  function FrameOf(entry: nat): nat { entry / 4096 }

  function Flags(entry: nat): nat { entry % 4096 }

  /** Bit 0. */
  predicate Present(entry: nat) { Flags(entry) % 2 == 1 }

  /** Bit 1. */
  predicate Writable(entry: nat) { Flags(entry) / 2 % 2 == 1 }

  /** Bit 2. */
  predicate ForUser(entry: nat) { Flags(entry) / 4 % 2 == 1 }

  /** `(physical & ~0xFFF) | flags` for a physical address in frame `frame`, and flags that fit in
      the low twelve bits. */
  function Entry(frame: nat, flags: nat): (e: nat)
    requires frame < PAGES && flags < 4096
    ensures e < WORD && FrameOf(e) == frame && Flags(e) == flags
  {
    4096 * frame + flags
  }

  const KERNEL_FLAGS: nat := 3           // present, read/write
  const USER_FLAGS: nat := 7             // present, read/write, user

  /** The machine's memory: frames, the set the frame allocator has marked used, and the frame
      that holds the page directory. */
  datatype Sys = Sys(mem: seq<Frame>, used: set<nat>, pd: nat)

  predicate Shape(s: Sys) {
    s.pd < |s.mem| <= PAGES
  }

  /** The directory entry for the `i`-th 4 MB. */
  function Pde(s: Sys, i: nat): Word32
    requires Shape(s) && i < 1024
  {
    s.mem[s.pd][i]
  }

  /** The entry a page walk ends in, when directory and table entry are present; 0, which is no
      present entry, for a page fault. */
  function WalkIn(mem: seq<Frame>, pd: nat, page: nat): nat
    requires pd < |mem| && page < PAGES
  {
    var pde := mem[pd][page / 1024];
    if !Present(pde) || FrameOf(pde) >= |mem| then 0 else Lookup(mem[FrameOf(pde)][page % 1024])
  }

  function Walk(s: Sys, page: nat): nat
    requires Shape(s) && page < PAGES
  {
    WalkIn(s.mem, s.pd, page)
  }

  function Lookup(entry: nat): nat {
    if Present(entry) then entry else 0
  }

  // ----- what paging needs to stay sound -----

  /** A present table is a frame in use below 8 MB other than the directory; from 8 MB on its directory
      entry is open to user mode. */
  ghost predicate TableSound(s: Sys, i: nat)
    requires Shape(s) && i < 1024
  {
    Present(Pde(s, i)) ==>
      FrameOf(Pde(s, i)) < |s.mem| && FrameOf(Pde(s, i)) < LOW &&
      FrameOf(Pde(s, i)) in s.used && FrameOf(Pde(s, i)) != s.pd && (2 <= i ==> Flags(Pde(s, i)) == USER_FLAGS)
  }

  ghost predicate TablesDiffer(s: Sys, i: nat, j: nat)
    requires Shape(s) && i < 1024 && j < 1024
  {
    i != j && Present(Pde(s, i)) && Present(Pde(s, j)) ==> FrameOf(Pde(s, i)) != FrameOf(Pde(s, j))
  }

  ghost predicate IdentityAt(s: Sys, page: nat)
    requires Shape(s) && page < PAGES
  {
    Walk(s, page) == Entry(page, KERNEL_FLAGS)
  }

  ghost predicate InRange(s: Sys, f: nat) {
    f in s.used ==> f < |s.mem|
  }

  /** The directory and the tables are used frames below 8 MB, no two the same; the first 8 MB are
      mapped to themselves. */
  ghost predicate Inv(s: Sys) {
    && Shape(s)
    && s.pd in s.used && s.pd < LOW
    && (forall i: nat :: i < 1024 ==> TableSound(s, i))
    && (forall i: nat, j: nat :: i < 1024 && j < 1024 ==> TablesDiffer(s, i, j))
    && (forall p: nat :: p < LOW ==> IdentityAt(s, p))
    && (forall f: nat :: InRange(s, f))
  }

  ghost predicate NotTableAt(s: Sys, f: nat, i: nat)
    requires Shape(s) && i < 1024
  {
    Present(Pde(s, i)) ==> FrameOf(Pde(s, i)) != f
  }

  /** A frame that is neither the directory nor a page table. */
  ghost predicate NotTable(s: Sys, f: nat)
    requires Shape(s)
  {
    f != s.pd && forall i: nat :: i < 1024 ==> NotTableAt(s, f, i)
  }

  /** The directory entries that are present. */
  ghost function Tables(s: Sys): set<nat>
    requires Shape(s)
  {
    set i: nat | i < 1024 && Present(Pde(s, i))
  }

  ghost predicate SameWalk(s: Sys, t: Sys, page: nat)
    requires Shape(s) && Shape(t) && page < PAGES
  {
    Walk(t, page) == Walk(s, page)
  }

  /** A used frame that is no table keeps its content and does not become a table. */
  ghost predicate Kept(s: Sys, t: Sys, g: nat)
    requires Shape(s) && Shape(t) && |t.mem| == |s.mem|
  {
    g in s.used && NotTable(s, g) && g < |s.mem| ==> NotTable(t, g) && t.mem[g] == s.mem[g]
  }

  ghost predicate StaysPresent(s: Sys, t: Sys, i: nat)
    requires Shape(s) && Shape(t) && i < 1024
  {
    Present(Pde(s, i)) ==> Present(Pde(t, i))
  }

  /** What every operation here leaves alone: frames stay used, present tables stay present, and
      used frames that are no tables stay as they are. */
  ghost predicate Grew(s: Sys, t: Sys) {
    && Shape(s) && Inv(t) && |t.mem| == |s.mem| && t.pd == s.pd && s.used <= t.used
    && (forall i: nat :: i < 1024 ==> StaysPresent(s, t, i))
    && (forall g: nat :: Kept(s, t, g))
  }

  lemma GrewTransitive(s: Sys, t: Sys, u: Sys)
    requires Grew(s, t) && Grew(t, u)
    ensures Grew(s, u)
  {
    forall i: nat | i < 1024
      ensures StaysPresent(s, u, i)
    {
      assert StaysPresent(s, t, i) && StaysPresent(t, u, i);
    }
    forall g: nat
      ensures Kept(s, u, g)
    {
      assert Kept(s, t, g) && Kept(t, u, g);
    }
  }

  /** Writing to a frame that is no table changes no translation. */
  lemma TranslationOutside(s: Sys, f: nat, content: Frame, page: nat)
    requires Inv(s) && f < |s.mem| && NotTable(s, f) && page < PAGES
    ensures WalkIn(s.mem[f := content], s.pd, page) == Walk(s, page)
  {
    assert NotTableAt(s, f, page / 1024);
  }

  lemma StillNoTable(s: Sys, t: Sys, h: nat)
    requires Shape(s) && Shape(t) && t.pd == s.pd && t.mem[t.pd] == s.mem[s.pd] && NotTable(s, h)
    ensures NotTable(t, h)
  {
    forall i: nat | i < 1024
      ensures NotTableAt(t, h, i)
    {
      assert NotTableAt(s, h, i);
    }
  }

  /** Writing to a frame that is no table leaves tables and translations alone. */
  lemma WrittenInv(s: Sys, f: nat, content: Frame)
    requires Inv(s) && f < |s.mem| && NotTable(s, f)
    ensures var t := s.(mem := s.mem[f := content]);
            Inv(t) && Tables(t) == Tables(s) && (forall h: nat :: NotTable(s, h) ==> NotTable(t, h))
    ensures var t := s.(mem := s.mem[f := content]); forall p: nat :: p < PAGES ==> SameWalk(s, t, p)
  {
    var t := s.(mem := s.mem[f := content]);
    forall i: nat | i < 1024
      ensures TableSound(t, i)
    {
      assert TableSound(s, i);
    }
    forall i: nat, j: nat | i < 1024 && j < 1024
      ensures TablesDiffer(t, i, j)
    {
      assert TablesDiffer(s, i, j);
    }
    forall p: nat | p < PAGES
      ensures SameWalk(s, t, p)
    {
      TranslationOutside(s, f, content, p);
    }
    forall p: nat | p < LOW
      ensures IdentityAt(t, p)
    {
      assert IdentityAt(s, p) && SameWalk(s, t, p);
    }
    forall g: nat
      ensures InRange(t, g)
    {
      assert InRange(s, g);
    }
    forall h: nat | NotTable(s, h)
      ensures NotTable(t, h)
    {
      StillNoTable(s, t, h);
    }
  }

  // ----- where translations lead -----

  /** A frame in use that is no table. */
  ghost predicate DataFrame(s: Sys, f: nat)
    requires Shape(s)
  {
    f < |s.mem| && f in s.used && NotTable(s, f)
  }

  ghost predicate LeadsToData(s: Sys, page: nat)
    requires Shape(s) && page < PAGES
  {
    Walk(s, page) != 0 ==> DataFrame(s, FrameOf(Walk(s, page)))
  }

  /** Two mapped pages that are not the same lead to different frames. */
  ghost predicate PagesApart(s: Sys, p: nat, q: nat)
    requires Shape(s) && p < PAGES && q < PAGES
  {
    p != q && Walk(s, p) != 0 && Walk(s, q) != 0 ==> FrameOf(Walk(s, p)) != FrameOf(Walk(s, q))
  }

  /** Every page from 8 MB on is unmapped or leads to a frame in use that is no table, no two to the same. */
  ghost predicate Tidy(s: Sys) {
    && Shape(s) && (forall p: nat :: LOW <= p < PAGES ==> LeadsToData(s, p))
    && (forall p: nat, q: nat :: LOW <= p < PAGES && LOW <= q < PAGES ==> PagesApart(s, p, q))
  }

  /** What holds while no store of the kernel has gone astray. */
  ghost predicate Sane(s: Sys) {
    Inv(s) && Tidy(s)
  }

  lemma WrittenSane(s: Sys, f: nat, content: Frame)
    requires Sane(s) && f < |s.mem| && NotTable(s, f)
    ensures Sane(s.(mem := s.mem[f := content]))
  {
    hide Inv, NotTable, Walk;
    var t := s.(mem := s.mem[f := content]);
    WrittenInv(s, f, content);
    forall p: nat | LOW <= p < PAGES
      ensures LeadsToData(t, p)
    {
      assert LeadsToData(s, p) && SameWalk(s, t, p);
    }
    forall p: nat, q: nat | LOW <= p < PAGES && LOW <= q < PAGES
      ensures PagesApart(t, p, q)
    {
      assert PagesApart(s, p, q) && SameWalk(s, t, p) && SameWalk(s, t, q);
    }
  }

  ghost predicate NotLeading(s: Sys, page: nat, f: nat)
    requires Shape(s) && page < PAGES
  {
    Walk(s, page) != 0 ==> FrameOf(Walk(s, page)) != f
  }

  /** No page from 8 MB on leads to the frame. */
  ghost predicate Private(s: Sys, f: nat) {
    Shape(s) && forall p: nat :: LOW <= p < PAGES ==> NotLeading(s, p, f)
  }

  /** The frame's physical address, used as a virtual one, leads to it. */
  predicate Reached(s: Sys, f: nat) {
    Shape(s) && f < PAGES && Walk(s, f) != 0 && FrameOf(Walk(s, f)) == f
  }

  lemma FreshIsPrivate(s: Sys, f: nat)
    requires Tidy(s) && f !in s.used
    ensures Private(s, f)
  {
    forall p: nat | LOW <= p < PAGES
      ensures NotLeading(s, p, f)
    {
      assert LeadsToData(s, p);
    }
  }

  /** The kernel reaches a frame of its own if and only if it lies below 8 MB. */
  lemma ReachedExactlyLow(s: Sys, f: nat)
    requires Inv(s) && Private(s, f) && f < PAGES
    ensures Reached(s, f) <==> f < LOW
  {
    if f < LOW {
      assert IdentityAt(s, f);
    } else {
      assert NotLeading(s, f, f);
    }
  }

  // ----- the frame allocator seen from here -----

  function LeastFree(s: Sys): nat {
    Pmm.FirstFree(s.used, |s.mem|, 0)
  }

  lemma LeastFreeGrows(s: Sys, t: Sys)
    requires s.used <= t.used && |t.mem| == |s.mem|
    ensures LeastFree(s) <= LeastFree(t)
  {
  }

  /** The frames below 8 MB that are free. */
  function LowTop(s: Sys): nat {
    if |s.mem| < LOW then |s.mem| else LOW
  }

  function SpareFrames(s: Sys): set<nat> {
    Pmm.Frames(LowTop(s)) - s.used
  }

  function Spare(s: Sys): nat {
    |SpareFrames(s)|
  }

  /** The least free frame lies below 8 MB if and only if there is a spare one. */
  lemma LeastFreeIsLow(s: Sys)
    ensures LeastFree(s) < LowTop(s) <==> Spare(s) > 0
  {
    if LeastFree(s) < LowTop(s) {
      assert LeastFree(s) in SpareFrames(s);
    } else {
      assert SpareFrames(s) == {};
    }
  }

  /** Taking frames takes at most so many spare ones. */
  lemma SpareShrinks(s: Sys, t: Sys)
    requires s.used <= t.used && |t.mem| == |s.mem|
    ensures Spare(t) <= Spare(s) <= Spare(t) + |t.used| - |s.used|
  {
    Pmm.SubsetSize(SpareFrames(t), SpareFrames(s));
    var taken := t.used - s.used;
    Pmm.SubsetSize(SpareFrames(s), SpareFrames(t) + taken);
    assert t.used == s.used + taken;
  }

  // ----- growing -----

  /** The translation is as before, or leads to a frame that was not in use before. */
  ghost predicate NewOrSame(s: Sys, t: Sys, page: nat)
    requires Shape(s) && Shape(t) && page < PAGES
  {
    SameWalk(s, t, page) ||
    (Walk(t, page) != 0 && FrameOf(Walk(t, page)) !in s.used && DataFrame(t, FrameOf(Walk(t, page))))
  }

  /** A page that leads to a new frame is the only one that does. */
  ghost predicate NewApart(s: Sys, t: Sys, p: nat, q: nat)
    requires Shape(s) && Shape(t) && p < PAGES && q < PAGES
  {
    SameWalk(s, t, p) || PagesApart(t, p, q)
  }

  ghost predicate NewBelow(s: Sys, t: Sys, f: nat) {
    f in t.used && f !in s.used ==> f < LeastFree(t)
  }

  /** Growth by operations that take the least free frame each time and map only what they took. */
  ghost predicate Extends(s: Sys, t: Sys) {
    && Grew(s, t)
    && (forall p: nat :: LOW <= p < PAGES ==> NewOrSame(s, t, p))
    && (forall p: nat, q: nat :: LOW <= p < PAGES && LOW <= q < PAGES ==> NewApart(s, t, p, q))
    && (forall f: nat :: NewBelow(s, t, f))
  }

  lemma ExtendsItself(s: Sys)
    requires Inv(s)
    ensures Extends(s, s)
  {
    forall p: nat | LOW <= p < PAGES
      ensures NewOrSame(s, s, p)
    {
      assert SameWalk(s, s, p);
    }
    forall p: nat, q: nat | LOW <= p < PAGES && LOW <= q < PAGES
      ensures NewApart(s, s, p, q)
    {
      assert SameWalk(s, s, p);
    }
  }

  lemma ExtendsTransitive(s: Sys, t: Sys, u: Sys)
    requires Extends(s, t) && Extends(t, u)
    ensures Extends(s, u)
  {
    GrewTransitive(s, t, u);
    LeastFreeGrows(t, u);
    forall p: nat | LOW <= p < PAGES
      ensures NewOrSame(s, u, p)
    {
      assert NewOrSame(s, t, p) && NewOrSame(t, u, p);
      assert Kept(t, u, FrameOf(Walk(t, p)));
    }
    forall p: nat, q: nat | LOW <= p < PAGES && LOW <= q < PAGES
      ensures NewApart(s, u, p, q)
    {
      assert NewApart(s, t, p, q) && NewApart(t, u, p, q);
      assert NewOrSame(s, t, p) && NewOrSame(t, u, p) && NewOrSame(t, u, q);
    }
    forall f: nat
      ensures NewBelow(s, u, f)
    {
      assert NewBelow(s, t, f) && NewBelow(t, u, f);
    }
  }

  lemma TidyStays(s: Sys, t: Sys)
    requires Tidy(s) && Extends(s, t)
    ensures Sane(t)
  {
    forall p: nat | LOW <= p < PAGES
      ensures LeadsToData(t, p)
    {
      assert LeadsToData(s, p) && NewOrSame(s, t, p);
      assert Kept(s, t, FrameOf(Walk(s, p)));
    }
    forall p: nat, q: nat | LOW <= p < PAGES && LOW <= q < PAGES
      ensures PagesApart(t, p, q)
    {
      assert PagesApart(s, p, q) && NewApart(s, t, p, q) && NewApart(s, t, q, p);
    }
  }

  lemma PrivateStays(s: Sys, t: Sys, f: nat)
    requires Private(s, f) && f in s.used && Extends(s, t)
    ensures Private(t, f)
  {
    forall p: nat | LOW <= p < PAGES
      ensures NotLeading(t, p, f)
    {
      assert NotLeading(s, p, f) && NewOrSame(s, t, p);
    }
  }

  /** While the last frame to be taken is a low one, exactly low ones have been taken. */
  lemma SpareShrinksExactly(s: Sys, t: Sys)
    requires Extends(s, t) && LeastFree(t) <= LowTop(t)
    ensures Spare(s) == Spare(t) + |t.used| - |s.used|
  {
    var taken := t.used - s.used;
    forall f | f in taken
      ensures f in SpareFrames(s)
    {
      assert NewBelow(s, t, f);
    }
    assert SpareFrames(s) == SpareFrames(t) + taken;
    assert t.used == s.used + taken;
  }

  // ----- mapping one page -----

  /** What `vmm_map_page` ends in. `Mapped` and `Astray` return normally; `Astray` when the stores to
      the new table have gone to another frame. `NoFrame`: no frame for a new table, the processor is
      halted. `Fault`: the new table's physical address is not mapped. */
  datatype MapResult = Mapped(s: Sys) | Astray(s: Sys) | NoFrame | Fault

  function ZeroFrame(): (f: Frame)
    ensures forall k :: 0 <= k < 1024 ==> f[k] == 0
  {
    seq(1024, _ => 0)
  }

  function PutEntry(s: Sys, page: nat, entry: nat): (t: Sys)
    requires Shape(s) && page < PAGES && entry < WORD && FrameOf(Pde(s, page / 1024)) < |s.mem|
    ensures |t.mem| == |s.mem| && t.pd == s.pd && t.used == s.used
  {
    var t := FrameOf(Pde(s, page / 1024));
    s.(mem := s.mem[t := s.mem[t][page % 1024 := entry]])
  }

  function AddTable(s: Sys, i: nat, f: nat): Sys
    requires Shape(s) && i < 1024 && f < |s.mem|
  {
    var zeroed := s.mem[f := ZeroFrame()];
    s.(mem := zeroed[s.pd := zeroed[s.pd][i := Entry(f, USER_FLAGS)]], used := s.used + {f})
  }

  /** The state after `pmm_alloc_page` has handed out the least free frame. */
  function Taken(s: Sys): Sys {
    s.(used := s.used + {LeastFree(s)})
  }

  lemma TakenKeeps(s: Sys)
    requires Inv(s) && LeastFree(s) < |s.mem|
    ensures LeastFree(s) !in s.used && NotTable(Taken(s), LeastFree(s)) && Grew(s, Taken(s))
    ensures |Taken(s).used| == |s.used| + 1 && Tables(Taken(s)) == Tables(s)
  {
    var f, t := LeastFree(s), Taken(s);
    forall i: nat | i < 1024
      ensures TableSound(t, i) && NotTableAt(t, f, i)
    {
      assert TableSound(s, i);
    }
    forall i: nat, j: nat | i < 1024 && j < 1024
      ensures TablesDiffer(t, i, j)
    {
      assert TablesDiffer(s, i, j);
    }
    forall p: nat | p < LOW
      ensures IdentityAt(t, p)
    {
      assert IdentityAt(s, p);
    }
    forall g: nat
      ensures InRange(t, g) && Kept(s, t, g)
    {
      assert InRange(s, g);
      if NotTable(s, g) {
        forall i: nat | i < 1024
          ensures NotTableAt(t, g, i)
        {
          assert NotTableAt(s, g, i);
        }
      }
    }
  }

  /** The state after `pmm_free_page` has taken back frame `f`. */
  function Freed(s: Sys, f: nat): Sys {
    s.(used := s.used - {f})
  }

  /** Giving back a frame that is no table harms nothing that was in use before it was taken. */
  lemma FreedKeeps(s: Sys, t: Sys, f: nat)
    requires Grew(s, t) && f !in s.used && NotTable(t, f)
    ensures Grew(s, Freed(t, f))
  {
    var u := Freed(t, f);
    forall i: nat | i < 1024
      ensures TableSound(u, i) && StaysPresent(s, u, i)
    {
      assert TableSound(t, i) && StaysPresent(s, t, i) && NotTableAt(t, f, i);
    }
    forall i: nat, j: nat | i < 1024 && j < 1024
      ensures TablesDiffer(u, i, j)
    {
      assert TablesDiffer(t, i, j);
    }
    forall p: nat | p < LOW
      ensures IdentityAt(u, p)
    {
      assert IdentityAt(t, p);
    }
    forall g: nat
      ensures InRange(u, g) && Kept(s, u, g)
    {
      assert InRange(t, g) && Kept(s, t, g);
      if g in s.used && NotTable(s, g) && g < |s.mem| {
        forall i: nat | i < 1024
          ensures NotTableAt(u, g, i)
        {
          assert NotTableAt(t, g, i);
        }
      }
    }
  }

  /** A table with nothing but the entry for the page. */
  function TableWith(page: nat, entry: nat): Frame
    requires entry < WORD
  {
    ZeroFrame()[page % 1024 := entry]
  }

  /** A new table for directory entry `i` in frame `f`, whose clearing and whose entry for `page` are
      stored in frame `g`. */
  function TableThrough(s: Sys, page: nat, entry: nat, f: nat, g: nat): (t: Sys)
    requires Shape(s) && page < PAGES && entry < WORD && f < |s.mem| && g < |s.mem|
    ensures |t.mem| == |s.mem| && t.pd == s.pd && t.used == s.used + {f}
  {
    var stored := s.mem[g := TableWith(page, entry)];
    s.(mem := stored[s.pd := stored[s.pd][page / 1024 := Entry(f, USER_FLAGS)]], used := s.used + {f})
  }

  /** `vmm_map_page`. The kernel writes a new table through its physical address, so the stores go to
      the frame that address leads to. */
  function MapPage(s: Sys, page: nat, entry: nat): MapResult
    requires Inv(s) && page < PAGES && entry < WORD
  {
    if Present(Pde(s, page / 1024)) then
      assert TableSound(s, page / 1024);
      Mapped(PutEntry(s, page, entry))
    else
      var f := LeastFree(s);
      if f == |s.mem| then NoFrame
      else
        var g := FrameOf(Walk(s, f));
        if Walk(s, f) == 0 || g >= |s.mem| then Fault
        else if g == f then Mapped(TableThrough(s, page, entry, f, f))
        else Astray(TableThrough(s, page, entry, f, g))
  }

  /** The state when the new table has been cleared and entered in the directory. */
  function TableAdded(s: Sys, i: nat, f: nat, g: nat): (t: Sys)
    requires Shape(s) && i < 1024 && f < |s.mem| && g < |s.mem|
    ensures |t.mem| == |s.mem| && t.pd == s.pd && t.used == s.used + {f}
  {
    var cleared := s.mem[g := ZeroFrame()];
    s.(mem := cleared[s.pd := cleared[s.pd][i := Entry(f, USER_FLAGS)]], used := s.used + {f})
  }

  /** An address of the kernel leads nowhere, or to a frame that is no table. */
  ghost predicate Steady(s: Sys, f: nat) {
    Inv(s) && f < PAGES &&
    (Walk(s, f) != 0 ==> FrameOf(Walk(s, f)) < |s.mem| && NotTable(s, FrameOf(Walk(s, f))))
  }

  /** The entry then goes where the clearing went. */
  lemma TableAddedWalk(s: Sys, page: nat, entry: nat, f: nat, g: nat)
    requires Steady(s, f) && Walk(s, f) != 0 && g == FrameOf(Walk(s, f)) && f < |s.mem|
    requires page < PAGES && entry < WORD && !Present(Pde(s, page / 1024))
    ensures var t := TableAdded(s, page / 1024, f, g);
            Walk(t, f) == Walk(s, f) && g != s.pd &&
            t.(mem := t.mem[g := t.mem[g][page % 1024 := entry]]) == TableThrough(s, page, entry, f, g)
  {
    var t := TableAdded(s, page / 1024, f, g);
    assert NotTableAt(s, g, f / 1024);
    assert Pde(t, f / 1024) == Pde(s, f / 1024);
    assert TableSound(s, f / 1024);
    assert t.mem[g := t.mem[g][page % 1024 := entry]] == TableThrough(s, page, entry, f, g).mem;
  }

  lemma TableThroughIsAddTable(s: Sys, page: nat, entry: nat, f: nat)
    requires Shape(s) && page < PAGES && entry < WORD && f < |s.mem| && f != s.pd
    ensures FrameOf(Pde(AddTable(s, page / 1024, f), page / 1024)) == f
    ensures TableThrough(s, page, entry, f, f) == PutEntry(AddTable(s, page / 1024, f), page, entry)
  {
    AddTableDirectory(s, page / 1024, f, page / 1024);
  }

  lemma AddTableDirectory(s: Sys, i: nat, f: nat, j: nat)
    requires Shape(s) && i < 1024 && j < 1024 && f < |s.mem| && f != s.pd
    ensures Pde(AddTable(s, i, f), j) == if j == i then Entry(f, USER_FLAGS) else Pde(s, j)
    ensures Present(Pde(AddTable(s, i, f), i)) && FrameOf(Pde(AddTable(s, i, f), i)) == f
  {
  }

  // ----- writing an entry of an existing table -----

  lemma PutEntryWalk(s: Sys, page: nat, entry: nat, p: nat)
    requires Inv(s) && page < PAGES && entry < WORD && Present(Pde(s, page / 1024)) && p < PAGES
    ensures FrameOf(Pde(s, page / 1024)) < |s.mem|
    ensures Walk(PutEntry(s, page, entry), p) == if p == page then Lookup(entry) else Walk(s, p)
  {
    assert TableSound(s, page / 1024) && TablesDiffer(s, p / 1024, page / 1024);
  }

  lemma PutEntryDirectory(s: Sys, page: nat, entry: nat, i: nat)
    requires Inv(s) && page < PAGES && entry < WORD && Present(Pde(s, page / 1024)) && i < 1024
    ensures FrameOf(Pde(s, page / 1024)) < |s.mem|
    ensures Pde(PutEntry(s, page, entry), i) == Pde(s, i)
  {
    assert TableSound(s, page / 1024);
  }

  lemma PutEntryInv(s: Sys, page: nat, entry: nat)
    requires Inv(s) && LOW <= page < PAGES && entry < WORD && Present(Pde(s, page / 1024))
    ensures FrameOf(Pde(s, page / 1024)) < |s.mem| && Inv(PutEntry(s, page, entry))
  {
    PutEntryDirectory(s, page, entry, 0);
    var t := PutEntry(s, page, entry);
    forall i: nat | i < 1024
      ensures TableSound(t, i)
    {
      PutEntryDirectory(s, page, entry, i);
      assert TableSound(s, i);
    }
    forall i: nat, j: nat | i < 1024 && j < 1024
      ensures TablesDiffer(t, i, j)
    {
      PutEntryDirectory(s, page, entry, i);
      PutEntryDirectory(s, page, entry, j);
      assert TablesDiffer(s, i, j);
    }
    forall p: nat | p < LOW
      ensures IdentityAt(t, p)
    {
      PutEntryWalk(s, page, entry, p);
      assert IdentityAt(s, p);
    }
    forall f: nat
      ensures InRange(t, f)
    {
      assert InRange(s, f);
    }
  }

  lemma PutEntryKeeps(s: Sys, page: nat, entry: nat)
    requires Inv(s) && LOW <= page < PAGES && entry < WORD && Present(Pde(s, page / 1024))
    ensures FrameOf(Pde(s, page / 1024)) < |s.mem| && Grew(s, PutEntry(s, page, entry))
  {
    PutEntryInv(s, page, entry);
    var t := PutEntry(s, page, entry);
    forall i: nat | i < 1024
      ensures StaysPresent(s, t, i)
    {
      PutEntryDirectory(s, page, entry, i);
    }
    forall g: nat
      ensures Kept(s, t, g)
    {
      if g < |s.mem| && NotTable(s, g) {
        assert NotTableAt(s, g, page / 1024);
        forall i: nat | i < 1024
          ensures NotTableAt(t, g, i)
        {
          assert NotTableAt(s, g, i);
          PutEntryDirectory(s, page, entry, i);
        }
      }
    }
  }

  // ----- adding a table -----

  predicate CanAdd(s: Sys, i: nat, f: nat) {
    Shape(s) && i < 1024 && !Present(Pde(s, i)) && f < |s.mem| && f < LOW && f !in s.used
  }

  lemma AddTableWalk(s: Sys, i: nat, f: nat, p: nat)
    requires Inv(s) && CanAdd(s, i, f) && p < PAGES
    ensures Walk(AddTable(s, i, f), p) == Walk(s, p)
  {
    AddTableDirectory(s, i, f, p / 1024);
    assert TableSound(s, p / 1024);
  }

  lemma AddTableInv(s: Sys, i: nat, f: nat)
    requires Inv(s) && CanAdd(s, i, f)
    ensures Inv(AddTable(s, i, f))
  {
    var t := AddTable(s, i, f);
    forall j: nat | j < 1024
      ensures TableSound(t, j)
    {
      AddTableDirectory(s, i, f, j);
      assert TableSound(s, j);
    }
    forall j: nat, k: nat | j < 1024 && k < 1024
      ensures TablesDiffer(t, j, k)
    {
      AddTableDirectory(s, i, f, j);
      AddTableDirectory(s, i, f, k);
      assert TableSound(s, j) && TableSound(s, k) && TablesDiffer(s, j, k);
    }
    forall p: nat | p < LOW
      ensures IdentityAt(t, p)
    {
      AddTableWalk(s, i, f, p);
      assert IdentityAt(s, p);
    }
    forall g: nat
      ensures InRange(t, g)
    {
      assert InRange(s, g);
    }
  }

  /** The only new table is the new frame. */
  lemma AddTableNotTable(s: Sys, i: nat, f: nat, g: nat)
    requires Inv(s) && CanAdd(s, i, f) && g != f && NotTable(s, g)
    ensures NotTable(AddTable(s, i, f), g)
  {
    var t := AddTable(s, i, f);
    forall j: nat | j < 1024
      ensures NotTableAt(t, g, j)
    {
      AddTableDirectory(s, i, f, j);
      assert NotTableAt(s, g, j);
    }
  }

  lemma AddTableKeeps(s: Sys, i: nat, f: nat, t: Sys)
    requires Inv(s) && CanAdd(s, i, f) && t == AddTable(s, i, f)
    ensures Grew(s, t)
  {
    AddTableInv(s, i, f);
    forall j: nat | j < 1024
      ensures StaysPresent(s, t, j)
    {
      AddTableDirectory(s, i, f, j);
    }
    forall g: nat
      ensures Kept(s, t, g)
    {
      if g in s.used && NotTable(s, g) {
        AddTableNotTable(s, i, f, g);
      }
    }
  }

  // ----- vmm_map_page as a whole -----

  /** The table is there, or the frame for it will be below 8 MB. */
  predicate InWindow(s: Sys, page: nat)
    requires Shape(s) && page < PAGES
  {
    Present(Pde(s, page / 1024)) || LeastFree(s) < LowTop(s)
  }

  lemma LowTableFrame(s: Sys, page: nat)
    requires Inv(s) && page < PAGES && !Present(Pde(s, page / 1024)) && LeastFree(s) < LowTop(s)
    ensures Reached(s, LeastFree(s)) && CanAdd(s, page / 1024, LeastFree(s)) && LeastFree(s) != s.pd
  {
    assert IdentityAt(s, LeastFree(s));
  }

  /** A call ends with the page mapped if and only if the table is there or the frame for it lies below
      8 MB. */
  lemma MapPageSucceeds(s: Sys, page: nat, entry: nat)
    requires Sane(s) && page < PAGES && entry < WORD
    ensures MapPage(s, page, entry).Mapped? <==> InWindow(s, page)
  {
    hide TableThrough, PutEntry, Walk, TableSound, TablesDiffer, Private, Tidy;
    var f := LeastFree(s);
    if !Present(Pde(s, page / 1024)) && f < |s.mem| {
      FreshIsPrivate(s, f);
      ReachedExactlyLow(s, f);
    }
  }

  /** Where the stores to a new table in frame `f` have gone when they have not reached it. */
  ghost predicate StoredAside(s: Sys, t: Sys, f: nat, page: nat, entry: nat)
    requires Shape(s) && f < PAGES && entry < WORD
  {
    var g := FrameOf(Walk(s, f));
    DataFrame(s, g) && g < |t.mem| && t.mem[g] == TableWith(page, entry)
  }

  lemma TableThroughAt(s: Sys, page: nat, entry: nat, f: nat, g: nat, k: nat)
    requires Shape(s) && page < PAGES && entry < WORD && f < |s.mem| && g < |s.mem| && k < |s.mem| && k != s.pd
    ensures TableThrough(s, page, entry, f, g).mem[k] ==
            if k == g then TableWith(page, entry) else s.mem[k]
  {
  }

  lemma LowNewTable(s: Sys, page: nat, entry: nat, f: nat, t: Sys)
    requires Inv(s) && page < PAGES && entry < WORD && !Present(Pde(s, page / 1024)) && f == LeastFree(s) < LowTop(s)
    requires f < |s.mem| == |t.mem|
    requires MapPage(s, page, entry) == Mapped(t) || MapPage(s, page, entry) == Astray(t)
    ensures MapPage(s, page, entry) == Mapped(t)
    ensures t.mem[f] == TableWith(page, entry)
  {
    hide TableThrough, Walk;
    LowTableFrame(s, page);
    ReachedMeans(s, f);
    TableThroughAt(s, page, entry, f, f, f);
  }

  lemma ReachedMeans(s: Sys, f: nat)
    requires Reached(s, f)
    ensures Walk(s, f) != 0 && FrameOf(Walk(s, f)) == f
  {
  }

  lemma HighNewTable(s: Sys, page: nat, entry: nat, f: nat, t: Sys)
    requires Sane(s) && page < PAGES && entry < WORD && !Present(Pde(s, page / 1024)) && LOW <= f == LeastFree(s)
    requires f < |s.mem| == |t.mem|
    requires MapPage(s, page, entry) == Mapped(t) || MapPage(s, page, entry) == Astray(t)
    ensures MapPage(s, page, entry) == Astray(t) && t.mem[f] == s.mem[f] && StoredAside(s, t, f, page, entry)
  {
    hide TableThrough;
    FreshIsPrivate(s, f);
    ReachedExactlyLow(s, f);
    assert LeadsToData(s, f);
    var g := FrameOf(Walk(s, f));
    TableThroughAt(s, page, entry, f, g, f);
    TableThroughAt(s, page, entry, f, g, g);
  }

  /** For a new table in frame `f`: it is cleared, holds the entry and is reached by the kernel if and
      only if `f` lies below 8 MB. Else, if the stores do not fault, it holds what it held before and a
      frame of data is overwritten. */
  lemma NewTableExactlyLow(s: Sys, page: nat, entry: nat, f: nat, t: Sys)
    requires Sane(s) && page < PAGES && entry < WORD && !Present(Pde(s, page / 1024))
    requires f == LeastFree(s) && (MapPage(s, page, entry) == Mapped(t) || MapPage(s, page, entry) == Astray(t))
    ensures f < |s.mem| == |t.mem|
    ensures f < LOW ==> MapPage(s, page, entry) == Mapped(t) && t.mem[f] == TableWith(page, entry)
    ensures f >= LOW ==>
              MapPage(s, page, entry) == Astray(t) && t.mem[f] == s.mem[f] && StoredAside(s, t, f, page, entry)
  {
    hide MapPage, Walk, TableWith, Tidy, TableSound, TablesDiffer, StoredAside;
    NormalEnd(s, page, entry, t);
    if f < LOW {
      LowNewTable(s, page, entry, f, t);
    } else {
      HighNewTable(s, page, entry, f, t);
    }
  }

  lemma NormalEnd(s: Sys, page: nat, entry: nat, t: Sys)
    requires Inv(s) && page < PAGES && entry < WORD && !Present(Pde(s, page / 1024))
    requires MapPage(s, page, entry) == Mapped(t) || MapPage(s, page, entry) == Astray(t)
    ensures LeastFree(s) < |s.mem| == |t.mem|
  {
    hide TableThrough, Walk, TableSound;
  }

  /** A call that ends so leaves everything else as it was. */
  lemma MapPageKeeps(s: Sys, page: nat, entry: nat, t: Sys)
    requires Inv(s) && LOW <= page < PAGES && entry < WORD && InWindow(s, page) && MapPage(s, page, entry) == Mapped(t)
    ensures Grew(s, t)
  {
    if Present(Pde(s, page / 1024)) {
      PutEntryKeeps(s, page, entry);
    } else {
      var f := LeastFree(s);
      var u := AddTable(s, page / 1024, f);
      LowTableFrame(s, page);
      TableThroughIsAddTable(s, page, entry, f);
      AddTableKeeps(s, page / 1024, f, u);
      AddTableDirectory(s, page / 1024, f, page / 1024);
      PutEntryKeeps(u, page, entry);
      GrewTransitive(s, u, t);
    }
  }

  /** It changes the translation of its page to the entry given, and no other translation. */
  lemma MapPageUpdatesOneKey(s: Sys, page: nat, entry: nat, t: Sys, p: nat)
    requires Inv(s) && page < PAGES && entry < WORD && p < PAGES
    requires InWindow(s, page) && MapPage(s, page, entry) == Mapped(t)
    ensures Shape(t)
    ensures Walk(t, p) == if p == page then Lookup(entry) else Walk(s, p)
  {
    if Present(Pde(s, page / 1024)) {
      PutEntryWalk(s, page, entry, p);
    } else {
      var f := LeastFree(s);
      LowTableFrame(s, page);
      TableThroughIsAddTable(s, page, entry, f);
      AddTableInv(s, page / 1024, f);
      AddTableWalk(s, page / 1024, f, p);
      AddTableDirectory(s, page / 1024, f, page / 1024);
      PutEntryWalk(AddTable(s, page / 1024, f), page, entry, p);
    }
  }

  ghost predicate PresentWith(s: Sys, t: Sys, j: nat, i: nat)
    requires Shape(s) && Shape(t)
  {
    i < 1024 ==> (Present(Pde(t, i)) <==> Present(Pde(s, i)) || i == j)
  }

  lemma MapPagePresent(s: Sys, page: nat, entry: nat, t: Sys, i: nat)
    requires Inv(s) && page < PAGES && entry < WORD && InWindow(s, page) && MapPage(s, page, entry) == Mapped(t)
    ensures Shape(t) && PresentWith(s, t, page / 1024, i)
  {
    MapPageUpdatesOneKey(s, page, entry, t, page);
    if i < 1024 {
      if Present(Pde(s, page / 1024)) {
        PutEntryDirectory(s, page, entry, i);
      } else {
        var f := LeastFree(s);
        LowTableFrame(s, page);
        TableThroughIsAddTable(s, page, entry, f);
        AddTableInv(s, page / 1024, f);
        AddTableDirectory(s, page / 1024, f, i);
        PutEntryDirectory(AddTable(s, page / 1024, f), page, entry, i);
      }
    }
  }

  lemma WithOne(a: set<nat>, x: nat)
    ensures |a + {x}| == |a| + if x in a then 0 else 1
  {
    if x in a {
      assert a + {x} == a;
    }
  }

  lemma MapPageUsed(s: Sys, page: nat, entry: nat, t: Sys)
    requires Inv(s) && page < PAGES && entry < WORD && MapPage(s, page, entry) == Mapped(t)
    ensures t.used == s.used + if Present(Pde(s, page / 1024)) then {} else {LeastFree(s)}
    ensures |t.used| == |s.used| + if Present(Pde(s, page / 1024)) then 0 else 1
  {
    if !Present(Pde(s, page / 1024)) {
      WithOne(s.used, LeastFree(s));
    }
  }

  lemma OneMoreTable(s: Sys, t: Sys, j: nat)
    requires Shape(s) && Shape(t) && j < 1024 && forall i: nat :: PresentWith(s, t, j, i)
    ensures Tables(t) == Tables(s) + {j}
  {
    forall i: nat
      ensures i in Tables(t) <==> i in Tables(s) + {j}
    {
      assert PresentWith(s, t, j, i);
    }
  }

  /** It takes one frame exactly when the table was missing. */
  lemma MapPageFrames(s: Sys, page: nat, entry: nat, t: Sys)
    requires Inv(s) && page < PAGES && entry < WORD && InWindow(s, page) && MapPage(s, page, entry) == Mapped(t)
    ensures Shape(t)
    ensures Tables(t) == Tables(s) + {page / 1024}
    ensures |t.used| == |s.used| + if page / 1024 in Tables(s) then 0 else 1
  {
    MapPagePresent(s, page, entry, t, 0);
    forall i: nat
      ensures PresentWith(s, t, page / 1024, i)
    {
      MapPagePresent(s, page, entry, t, i);
    }
    OneMoreTable(s, t, page / 1024);
    MapPageUsed(s, page, entry, t);
  }

  // ----- runs of vmm_map_page -----

  datatype MapCall = MapCall(page: nat, entry: nat)

  predicate GoodCall(c: MapCall) {
    LOW <= c.page < PAGES && c.entry < WORD
  }

  lemma InWindowIsMapped(s: Sys, page: nat, entry: nat)
    requires Inv(s) && page < PAGES && entry < WORD && InWindow(s, page)
    ensures MapPage(s, page, entry).Mapped?
  {
    if !Present(Pde(s, page / 1024)) {
      LowTableFrame(s, page);
    }
  }

  function MapOne(s: Sys, c: MapCall): (t: Sys)
    requires Inv(s) && GoodCall(c) && InWindow(s, c.page)
    ensures Inv(t)
  {
    InWindowIsMapped(s, c.page, c.entry);
    var t := MapPage(s, c.page, c.entry).s;
    MapPageKeeps(s, c.page, c.entry, t);
    t
  }

  /** The state after a run of calls; none when a table has no frame below 8 MB. */
  function MapAll(s: Sys, calls: seq<MapCall>): (t: Option<Sys>)
    requires Inv(s) && forall c :: c in calls ==> GoodCall(c)
    ensures t.Some? ==> Inv(t.value)
    decreases |calls|
  {
    if calls == [] then Some(s)
    else
      var c := calls[|calls| - 1];
      assert GoodCall(c);
      match MapAll(s, calls[..|calls| - 1])
      case None => None
      case Some(u) => if InWindow(u, c.page) then Some(MapOne(u, c)) else None
  }

  /** The directory entries a run of calls needs. */
  function CallTables(calls: seq<MapCall>): set<nat>
    decreases |calls|
  {
    if calls == [] then {}
    else CallTables(calls[..|calls| - 1]) + {calls[|calls| - 1].page / 1024}
  }

  /** What one call of a run takes. */
  lemma CallFrames(u: Sys, c: MapCall, t: Sys)
    requires Inv(u) && GoodCall(c) && InWindow(u, c.page) && t == MapOne(u, c)
    ensures Shape(t) && Tables(t) == Tables(u) + {c.page / 1024} && |t.mem| == |u.mem| && u.used <= t.used
    ensures |t.used| == |u.used| + if c.page / 1024 in Tables(u) then 0 else 1
    ensures Spare(u) == Spare(t) + |t.used| - |u.used|
  {
    InWindowIsMapped(u, c.page, c.entry);
    MapPageFrames(u, c.page, c.entry, t);
    MapPageKeeps(u, c.page, c.entry, t);
    MapPageSpare(u, c.page, c.entry, t);
  }

  lemma {:induction false} RunFrames(s: Sys, calls: seq<MapCall>, t: Sys)
    requires Inv(s) && (forall c :: c in calls ==> GoodCall(c)) && MapAll(s, calls) == Some(t)
    ensures Shape(t) && Tables(t) == Tables(s) + CallTables(calls)
    ensures |t.used| == |s.used| + |CallTables(calls) - Tables(s)| && s.used <= t.used && |t.mem| == |s.mem|
    ensures Spare(s) == Spare(t) + |t.used| - |s.used|
    decreases |calls|
  {
    hide Tables, Spare, MapOne;
    if calls != [] {
      var c, before := calls[|calls| - 1], calls[..|calls| - 1];
      assert GoodCall(c);
      var u := MapAll(s, before).value;
      RunFrames(s, before, u);
      CallFrames(u, c, t);
      OneMoreNeeded(CallTables(before), Tables(s), c.page / 1024);
    }
  }

  lemma SpareTakesOne(s: Sys, t: Sys, f: nat)
    requires f !in s.used && f < LowTop(s) && t.used == s.used + {f} && |t.mem| == |s.mem|
    ensures Spare(s) == Spare(t) + 1
  {
    assert SpareFrames(s) == SpareFrames(t) + {f};
  }

  lemma SameSpare(s: Sys, t: Sys)
    requires t.used == s.used && |t.mem| == |s.mem|
    ensures Spare(s) == Spare(t)
  {
  }

  /** Taking the least free frame. */
  lemma TakenExtends(s: Sys)
    requires Inv(s) && LeastFree(s) < |s.mem|
    ensures Extends(s, Taken(s))
  {
    var f, t := LeastFree(s), Taken(s);
    TakenKeeps(s);
    forall p: nat | LOW <= p < PAGES
      ensures NewOrSame(s, t, p)
    {
      assert SameWalk(s, t, p);
    }
    forall p: nat, q: nat | LOW <= p < PAGES && LOW <= q < PAGES
      ensures NewApart(s, t, p, q)
    {
      assert SameWalk(s, t, p);
    }
    forall g: nat
      ensures NewBelow(s, t, g)
    {
      TakenIsBelow(s, f, t);
    }
  }

  /** A frame just taken: the kernel's stores to it land in it, in a frame of data, or fault. */
  lemma TakenSteady(s: Sys)
    requires Sane(s) && LeastFree(s) < |s.mem|
    ensures Steady(Taken(s), LeastFree(s)) && Walk(Taken(s), LeastFree(s)) == Walk(s, LeastFree(s))
    ensures Private(Taken(s), LeastFree(s))
    ensures Reached(s, LeastFree(s)) <==> LeastFree(s) < LOW
  {
    var f, t := LeastFree(s), Taken(s);
    TakenExtends(s);
    TakenKeeps(s);
    TidyStays(s, t);
    FreshIsPrivate(s, f);
    ReachedExactlyLow(s, f);
    forall p: nat | LOW <= p < PAGES
      ensures NotLeading(t, p, f)
    {
      assert NotLeading(s, p, f);
    }
    if f < LOW {
      assert IdentityAt(s, f);
    } else {
      assert LeadsToData(t, f);
    }
  }

  lemma TakenIsBelow(s: Sys, f: nat, t: Sys)
    requires f == LeastFree(s) < |s.mem| == |t.mem| && s.used + {f} <= t.used
    ensures f < LeastFree(t)
  {
  }

  lemma MapPageSpare(s: Sys, page: nat, entry: nat, t: Sys)
    requires Inv(s) && page < PAGES && entry < WORD && InWindow(s, page) && MapPage(s, page, entry) == Mapped(t)
    requires |t.mem| == |s.mem|
    ensures Spare(s) == Spare(t) + |t.used| - |s.used|
  {
    hide MapPage, Spare;
    MapPageUsed(s, page, entry, t);
    if !Present(Pde(s, page / 1024)) {
      SpareTakesOne(s, t, LeastFree(s));
    } else {
      SameSpare(s, t);
    }
  }

  lemma OneMoreNeeded(a: set<nat>, have: set<nat>, x: nat)
    ensures |(a + {x}) - have| == |a - have| + if x in have + a then 0 else 1
  {
    if x in have + a {
      assert (a + {x}) - have == a - have;
    } else {
      assert (a + {x}) - have == (a - have) + {x};
    }
  }

  /** A run goes through if and only if there is a spare frame for each table it needs and has not. */
  lemma {:induction false} MapAllExactly(s: Sys, calls: seq<MapCall>)
    requires Inv(s) && forall c :: c in calls ==> GoodCall(c)
    ensures MapAll(s, calls).Some? <==> |CallTables(calls) - Tables(s)| <= Spare(s)
    decreases |calls|
  {
    hide Tables, Spare, MapOne;
    if calls != [] {
      var c, before := calls[|calls| - 1], calls[..|calls| - 1];
      assert GoodCall(c);
      MapAllExactly(s, before);
      OneMoreNeeded(CallTables(before), Tables(s), c.page / 1024);
      if MapAll(s, before).Some? {
        var u := MapAll(s, before).value;
        RunFrames(s, before, u);
        WindowBySpare(u, c.page);
      }
    }
  }

  lemma WindowBySpare(s: Sys, page: nat)
    requires Shape(s) && page < PAGES
    ensures InWindow(s, page) <==> page / 1024 in Tables(s) || Spare(s) > 0
  {
    LeastFreeIsLow(s);
  }

  /** The simple map a run of calls amounts to: the last entry given for a page, and before any
      the translation at the start. */
  function SimpleMap(s: Sys, calls: seq<MapCall>, page: nat): nat
    requires Shape(s) && page < PAGES
    decreases |calls|
  {
    if calls == [] then Walk(s, page)
    else if calls[|calls| - 1].page == page then Lookup(calls[|calls| - 1].entry)
    else SimpleMap(s, calls[..|calls| - 1], page)
  }

  /** Over any run, the two-level walk is the simple map; the identity map of the first 8 MB is
      never touched. */
  lemma {:induction false} WalkIsASimpleMap(s: Sys, calls: seq<MapCall>, t: Sys, page: nat)
    requires Inv(s) && page < PAGES && (forall c :: c in calls ==> GoodCall(c))
    requires MapAll(s, calls) == Some(t)
    ensures Walk(t, page) == SimpleMap(s, calls, page)
    ensures page < LOW ==> Walk(t, page) == Entry(page, KERNEL_FLAGS)
    decreases |calls|
  {
    if calls != [] {
      var c := calls[|calls| - 1];
      var before := calls[..|calls| - 1];
      var u := MapAll(s, before).value;
      assert GoodCall(c);
      WalkIsASimpleMap(s, before, u, page);
      InWindowIsMapped(u, c.page, c.entry);
      MapPageUpdatesOneKey(u, c.page, c.entry, t, page);
    }
    if page < LOW {
      assert IdentityAt(t, page);
    }
  }

  // ----- how many low frames are needed -----

  /** Fewer spare frames than `n` and one for each of the tables `dirs` that are missing. */
  ghost predicate Short(s: Sys, n: nat, dirs: set<nat>)
    requires Shape(s)
  {
    Spare(s) < n + |dirs - Tables(s)|
  }

  lemma NeededInTwoSteps(have: set<nat>, a: set<nat>, b: set<nat>)
    ensures |(a + b) - have| == |a - have| + |b - (have + a)|
  {
    assert (a + b) - have == (a - have) + (b - (have + a));
  }

  /** Between `s` and `t`, `n` data frames were taken and the tables `dirs` added where missing. */
  ghost predicate Took(s: Sys, t: Sys, n: nat, dirs: set<nat>)
  {
    && Shape(s) && Shape(t) && s.used <= t.used && |t.mem| == |s.mem|
    && Tables(t) == Tables(s) + dirs && |t.used| == |s.used| + n + |dirs - Tables(s)|
  }

  lemma TookInTwoSteps(s: Sys, t: Sys, u: Sys, n: nat, a: set<nat>, k: nat, b: set<nat>)
    requires Took(s, t, n, a) && Took(t, u, k, b)
    ensures Took(s, u, n + k, a + b)
  {
    NeededInTwoSteps(Tables(s), a, b);
  }

  /** What is short after taking something is short before. */
  lemma ShortEarlier(s: Sys, t: Sys, n: nat, a: set<nat>, k: nat, b: set<nat>)
    requires Took(s, t, n, a) && Short(t, k, b)
    ensures Short(s, n + k, a + b)
  {
    SpareShrinks(s, t);
    NeededInTwoSteps(Tables(s), a, b);
  }

  lemma ShortMore(s: Sys, n: nat, a: set<nat>, k: nat, b: set<nat>)
    requires Shape(s) && Short(s, n, a) && n <= k && a <= b
    ensures Short(s, k, b)
  {
    Pmm.SubsetSize(a - Tables(s), b - Tables(s));
  }

  // ----- which frame comes next -----

  /** The frame the allocator hands out after `n` others, or the number of frames when none is left. */
  function NthFree(s: Sys, n: nat): nat
    decreases n
  {
    if n == 0 || LeastFree(s) == |s.mem| then LeastFree(s) else NthFree(Taken(s), n - 1)
  }

  lemma UsedInRange(s: Sys)
    requires Inv(s)
    ensures s.used <= Pmm.Frames(|s.mem|) && |s.used| <= |s.mem|
    ensures LeastFree(s) == |s.mem| <==> |s.used| == |s.mem|
  {
    forall f | f in s.used
      ensures f in Pmm.Frames(|s.mem|)
    {
      assert InRange(s, f);
    }
    Pmm.SubsetSize(s.used, Pmm.Frames(|s.mem|));
    Pmm.FullExactlyWhenAllUsed(s.used, |s.mem|);
  }

  lemma SameLeastFree(s: Sys, t: Sys)
    requires s.used == t.used && |s.mem| == |t.mem|
    ensures LeastFree(s) == LeastFree(t)
  {
  }

  /** The frames taken between `s` and `t` were the first free ones. */
  ghost predicate InTurn(s: Sys, t: Sys) {
    s.used <= t.used && |t.mem| == |s.mem| && forall f: nat :: NewBelow(s, t, f)
  }

  lemma {:induction false} NextInTurn(s: Sys, t: Sys, n: nat)
    requires InTurn(s, t) && |t.used| == |s.used| + n
    ensures LeastFree(t) == NthFree(s, n)
    decreases n
  {
    if n == 0 {
      Pmm.SubsetSize(s.used, t.used);
      SameLeastFree(s, t);
    } else {
      FirstInTurn(s, t);
      forall f: nat
        ensures NewBelow(Taken(s), t, f)
      {
        assert NewBelow(s, t, f);
      }
      NextInTurn(Taken(s), t, n - 1);
    }
  }

  lemma FirstInTurn(s: Sys, t: Sys)
    requires InTurn(s, t) && |t.used| > |s.used|
    ensures LeastFree(s) < |s.mem| && LeastFree(s) in t.used && LeastFree(s) !in s.used
    ensures |Taken(s).used| == |s.used| + 1 && Taken(s).used <= t.used
  {
    var taken := t.used - s.used;
    assert t.used == s.used + taken;
    assert taken != {};
    var f :| f in taken;
    assert NewBelow(s, t, f);
    LeastFreeGrows(s, t);
  }

  /** No frame is left after `n` others if and only if at most `n` are free. */
  lemma TakenCounts(s: Sys)
    requires s.used <= Pmm.Frames(|s.mem|)
    ensures LeastFree(s) <= |s.mem| && (LeastFree(s) == |s.mem| <==> |s.used| == |s.mem|) && |s.used| <= |s.mem|
    ensures LeastFree(s) < |s.mem| ==>
              var t := Taken(s); t.used <= Pmm.Frames(|t.mem|) && |t.used| == |s.used| + 1 && |t.mem| == |s.mem|
  {
    Pmm.SubsetSize(s.used, Pmm.Frames(|s.mem|));
    Pmm.FullExactlyWhenAllUsed(s.used, |s.mem|);
  }

  lemma {:induction false} NthFreeIsNone(s: Sys, n: nat)
    requires s.used <= Pmm.Frames(|s.mem|)
    ensures NthFree(s, n) <= |s.mem|
    ensures NthFree(s, n) == |s.mem| <==> |s.mem| <= |s.used| + n
    decreases n
  {
    hide LeastFree, Taken, Pmm.Frames;
    TakenCounts(s);
    if n > 0 && LeastFree(s) < |s.mem| {
      NthFreeIsNone(Taken(s), n - 1);
    }
  }

  // ----- programs linked below 8 MB -----

  /** The kernel finds its own memory at the addresses it uses for it. */
  ghost predicate KernelInPlace(s: Sys) {
    Shape(s) && forall p: nat :: p < LOW ==> LeadsTo(s, p, p)
  }

  ghost predicate LeadsTo(s: Sys, page: nat, f: nat)
    requires Shape(s)
  {
    page < PAGES && Walk(s, page) != 0 && FrameOf(Walk(s, page)) == f
  }

  /** Mapping a page for the user leaves the kernel its memory if and only if the page lies at 8 MB or above,
      or is given its own frame. */
  lemma KernelStaysExactlyAbove(s: Sys, page: nat, f: nat, t: Sys)
    requires Inv(s) && page < PAGES && f < |s.mem| && InWindow(s, page)
    requires MapPage(s, page, Entry(f, USER_FLAGS)) == Mapped(t)
    ensures KernelInPlace(t) <==> page >= LOW || f == page
  {
    hide MapPage, Walk, TableSound, TablesDiffer;
    EntryReads(f);
    forall p: nat | p < LOW
      ensures Shape(t) && (LeadsTo(t, p, p) <==> p != page || f == page)
    {
      MapPageUpdatesOneKey(s, page, Entry(f, USER_FLAGS), t, p);
      assert IdentityAt(s, p);
    }
    MapPageUpdatesOneKey(s, page, Entry(f, USER_FLAGS), t, 0);
    if page < LOW && f != page { assert !LeadsTo(t, page, page); }
  }

  lemma EntryReads(f: nat)
    requires f < PAGES
    ensures Lookup(Entry(f, USER_FLAGS)) != 0 && FrameOf(Lookup(Entry(f, USER_FLAGS))) == f
    ensures Entry(f, USER_FLAGS) < WORD && forall p: nat :: p < LOW ==> FrameOf(Entry(p, KERNEL_FLAGS)) == p
  {
  }

  /** The first page of a program linked where the shipped ones are takes the bitmap away from the allocator:
      its address leads to the new frame from then on. */
  lemma ShippedProgramTakesBitmap(s: Sys, f: nat, t: Sys)
    requires Inv(s) && 0x10 in s.used && f < |s.mem| && f !in s.used
    requires MapPage(s, 0x10000 / 4096, Entry(f, USER_FLAGS)) == Mapped(t)
    ensures Shape(t) && LeadsTo(s, 0x10, 0x10) && LeadsTo(t, 0x10, f) && f != 0x10
  {
    hide MapPage, Walk, TableSound, TablesDiffer;
    EntryReads(f);
    assert IdentityAt(s, 0x10);
    IdentityHasTable(s, 0x10);
    MapPageUpdatesOneKey(s, 0x10, Entry(f, USER_FLAGS), t, 0x10);
  }

  lemma IdentityHasTable(s: Sys, page: nat)
    requires Inv(s) && page < LOW
    ensures InWindow(s, page)
  {
    assert IdentityAt(s, page);
  }
}
