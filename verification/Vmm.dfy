/** The virtual memory manager over an in-place memory: `vmm_init` and `vmm_map_page`.

    Every access the kernel makes goes through the page walk, as it does on the machine once paging
    is on. Where the walk leads is part of what is proved: to the intended frame, to another one (a
    stray store, after which `intact` is false), or nowhere (a page fault). */
module Vmm {
  import opened Words
  import opened Options
  import opened Paging
  import opened Bytes
  import opened UserMemory
  import Pmm

  /** `Halted`: no frame for a page table. `Faulted`: a page fault. */
  datatype MapStatus = Done | Halted | Faulted

  /** `NoMemory`: the allocator returned NULL. `Stop`: halted, or a page fault. */
  datatype NewPage = Fresh | NoMemory | Stop

  /** The end of `vmm_map_page` in the machine: its status, the state it leaves, and whether its stores
      have gone where they were meant to. */
  ghost predicate MapEnds(end: MapResult, s: Sys, r: MapStatus, t: Sys, intact: bool) {
    match end
    case Mapped(u) => r == Done && t == u && intact
    case Astray(u) => r == Done && t == u && !intact
    case NoFrame => r == Halted && t == s && intact
    case Fault => r == Faulted
  }

  /** The end of its branch for a missing table. */
  ghost predicate TableEnds(s: Sys, i: nat, r: MapStatus, table: nat, t: Sys)
    requires Shape(s) && i < 1024
  {
    var f := LeastFree(s);
    if f == |s.mem| then r == Halted && t == s
    else if Walk(s, f) == 0 then r == Faulted
    else
      && r == Done && table == f && FrameOf(Walk(s, f)) < |s.mem|
      && t == TableAdded(s, i, f, FrameOf(Walk(s, f)))
  }

  /** The page leads to the frame, present and writable: for user and kernel, or for the kernel alone. From 8 MB on
      its directory entry leaves the choice to the table entry. No other flag is set. */
  ghost predicate EntryIs(s: Sys, page: nat, f: nat, user: bool) {
    && Shape(s) && page < PAGES && FrameOf(Walk(s, page)) == f && Flags(Walk(s, page)) == (if user then 7 else 3)
    && (if user then OpenToWrites(Walk(s, page)) else KernelOnly(Walk(s, page)))
    && (page >= 2048 ==> OpenToWrites(Pde(s, page / 1024)) && Flags(Pde(s, page / 1024)) == 7)
  }

  lemma KernelPageMapped(s: Sys, page: nat, f: nat, t: Sys)
    requires Sane(s) && page < PAGES && f < PAGES && MapPage(s, page, Entry(f, KERNEL_FLAGS)) == Mapped(t)
    ensures EntryIs(t, page, f, false)
  {
    hide MapPage, Walk, TableSound, TablesDiffer, Tidy;
    MappedReads(s, page, Entry(f, KERNEL_FLAGS), t);
    FlagsMean(Entry(f, KERNEL_FLAGS));
    if page >= 2048 { FlagsMean(Pde(t, page / 1024)); }
  }

  lemma UserPageMapped(s: Sys, page: nat, f: nat, t: Sys)
    requires Sane(s) && page < PAGES && f < PAGES && MapPage(s, page, Entry(f, USER_FLAGS)) == Mapped(t)
    ensures EntryIs(t, page, f, true)
  {
    hide MapPage, Walk, TableSound, TablesDiffer, Tidy;
    MappedReads(s, page, Entry(f, USER_FLAGS), t);
    FlagsMean(Entry(f, USER_FLAGS));
    if page >= 2048 { FlagsMean(Pde(t, page / 1024)); }
  }

  lemma LowPagesAre(s: Sys)
    requires Inv(s)
    ensures forall p: nat :: p < 2048 ==> EntryIs(s, p, p, false)
  {
    forall p: nat | p < 2048
      ensures EntryIs(s, p, p, false)
    {
      assert IdentityAt(s, p);
      FlagsMean(Walk(s, p));
    }
  }

  /** A store of the kernel at word `i` of a virtual page, or a page fault. */
  ghost predicate WordStored(s: Sys, page: nat, i: nat, w: Word32, t: Sys, ok: bool)
    requires Shape(s) && page < PAGES && i < 1024
  {
    var e := Walk(s, page);
    if e == 0 || FrameOf(e) >= |s.mem| then !ok && t == s
    else ok && t == s.(mem := s.mem[FrameOf(e) := s.mem[FrameOf(e)][i := w]])
  }

  /** A frame cleared through its physical address, or a page fault. */
  ghost predicate Cleared(s: Sys, table: nat, t: Sys, ok: bool)
    requires Shape(s) && table < PAGES
  {
    var g := FrameOf(Walk(s, table));
    if Walk(s, table) == 0 then !ok && t == s
    else ok && g < |s.mem| && t == s.(mem := s.mem[g := ZeroFrame()])
  }

  class Machine {
    const mem: array<Frame>
    const pd: nat
    const frames: Pmm.FrameAllocator
    /** No store of the kernel has gone to another frame than the one it was meant for. */
    ghost var intact: bool

    ghost predicate Sound()
      reads frames, frames.memoryMap
    {
      && frames.Valid() && frames.totalPages == mem.Length
      && pd < mem.Length <= PAGES
      && mem as object != frames.memoryMap
    }

    ghost function Abs(): Sys
      reads this, mem, frames, frames.memoryMap
      requires frames.totalPages <= Pmm.MAX_PAGES && frames.memoryMap.Length == 0x8000
    {
      Sys(mem[..], frames.Used(), pd)
    }

    ghost predicate Valid()
      reads this, mem, frames, frames.memoryMap
    {
      Sound() && intact && Sane(Abs())
    }

    /** What holds whether or not a store has gone astray: if none has, the machine is sane; if one has,
        no frame below 8 MB is free. */
    ghost predicate Good()
      reads this, mem, frames, frames.memoryMap
    {
      Sound() && if intact then Sane(Abs()) else Spare(Abs()) == 0
    }

    /** Power-on: `pmm_init`, then `vmm_init`. The directory and the first two tables are static
        arrays of the kernel image, which lies below 4 MB. */
    constructor (memorySize: nat, directory: nat, firstTable: nat, secondTable: nat)
      requires memorySize < WORD
      requires directory < Pmm.FIRST_4MB_PAGES && firstTable < Pmm.FIRST_4MB_PAGES && secondTable < Pmm.FIRST_4MB_PAGES
      requires directory != firstTable && directory != secondTable && firstTable != secondTable
      requires directory < memorySize / 4096 && firstTable < memorySize / 4096 && secondTable < memorySize / 4096
      ensures Valid() && fresh(mem) && fresh(frames) && fresh(frames.memoryMap)
      ensures pd == directory && mem.Length == memorySize / 4096
      ensures frames.Used() == Pmm.Frames(if mem.Length < Pmm.FIRST_4MB_PAGES then mem.Length else Pmm.FIRST_4MB_PAGES)
      ensures Tables(Abs()) == {0, 1} && forall p: nat :: LOW <= p < PAGES ==> UnmappedAt(Abs(), p)
    {
      pd := directory;
      intact := true;
      mem := new Frame[memorySize / 4096];
      frames := new Pmm.FrameAllocator();
      new;
      frames.Init(memorySize);
      Init(firstTable, secondTable);
    }

    /** `vmm_init`. Paging is already on, with the boot code's identity map of the first 8 MB, so the
        addresses it writes to are physical ones. */
    method Init(firstTable: nat, secondTable: nat)
      requires Sound() && intact && pd in frames.Used() && pd < LOW
      requires firstTable in frames.Used() && firstTable < LOW && firstTable < mem.Length && firstTable != pd
      requires secondTable in frames.Used() && secondTable < LOW && secondTable < mem.Length && secondTable != pd
      requires firstTable != secondTable
      requires forall f: nat :: InRange(Abs(), f)
      modifies mem
      ensures Valid() && frames.Used() == old(frames.Used())
      ensures Tables(Abs()) == {0, 1} && forall p: nat :: LOW <= p < PAGES ==> UnmappedAt(Abs(), p)
      ensures BootTables(Abs(), firstTable, secondTable)
      ensures forall p: nat :: p < 2048 ==> EntryIs(Abs(), p, p, false)
      ensures forall f :: 0 <= f < mem.Length && f !in {pd, firstTable, secondTable} ==> mem[f] == old(mem[f])
    {
      hide Inv, Tidy, Sane, Spare, Tables, WalkIn, Walk, Entry, Present, UnmappedAt, BootTables, EntryIs;
      ghost var before := Abs();
      for i := 0 to 1024
        invariant forall f :: 0 <= f < mem.Length && f != firstTable ==> mem[f] == old(mem[f])
        invariant forall k :: 0 <= k < i ==> mem[firstTable][k] == Entry(k, KERNEL_FLAGS)
      {
        mem[firstTable] := mem[firstTable][i := Entry(i, KERNEL_FLAGS)];
      }
      mem[pd] := mem[pd][0 := Entry(firstTable, KERNEL_FLAGS)];
      label first:
      for i := 0 to 1024
        invariant forall f :: 0 <= f < mem.Length && f != secondTable ==> mem[f] == old@first(mem[f])
        invariant forall k :: 0 <= k < i ==> mem[secondTable][k] == Entry(0x400 + k, KERNEL_FLAGS)
      {
        mem[secondTable] := mem[secondTable][i := Entry(0x400 + i, KERNEL_FLAGS)];
      }
      mem[pd] := mem[pd][1 := Entry(secondTable, KERNEL_FLAGS)];
      label second:
      for i := 2 to 1024
        invariant forall f :: 0 <= f < mem.Length && f != pd ==> mem[f] == old@second(mem[f])
        invariant mem[pd][0] == old@second(mem[pd])[0] && mem[pd][1] == old@second(mem[pd])[1]
        invariant forall k :: 2 <= k < i ==> mem[pd][k] == 0
      {
        mem[pd] := mem[pd][i := 0];
      }
      forall f: nat
        ensures InRange(Abs(), f)
      {
        assert InRange(before, f);
      }
      InitialInv(Abs(), firstTable, secondTable);
      InitialWords(Abs(), firstTable, secondTable);
      SaneMeans(Abs());
      LowPagesAre(Abs());
    }

    /** One aligned word store by the kernel at word `i` of a virtual page; false for a page fault. */
    method StoreWord(page: nat, i: nat, w: Word32) returns (ok: bool)
      requires Sound() && page < PAGES && i < 1024
      modifies mem
      ensures Sound() && frames.Used() == old(frames.Used())
      ensures WordStored(old(Abs()), page, i, w, Abs(), ok)
    {
      var e := WalkIn(mem[..], pd, page);
      if e == 0 || FrameOf(e) >= mem.Length { return false; }
      mem[FrameOf(e)] := mem[FrameOf(e)][i := w];
      return true;
    }

    method LoadWord(page: nat, i: nat) returns (w: Option<Word32>)
      requires Sound() && page < PAGES && i < 1024
      ensures var e := Walk(Abs(), page);
              w == if e == 0 || FrameOf(e) >= mem.Length then None else Some(mem[FrameOf(e)][i])
    {
      var e := WalkIn(mem[..], pd, page);
      if e == 0 || FrameOf(e) >= mem.Length { return None; }
      return Some(mem[FrameOf(e)][i]);
    }

    /** The loop of `vmm_map_page` that zeroes a new table through its physical address. */
    method ClearTable(table: nat) returns (ok: bool)
      requires Sound() && table < PAGES && (intact ==> Steady(Abs(), table))
      modifies mem
      ensures Sound() && frames.Used() == old(frames.Used())
      ensures intact ==> Cleared(old(Abs()), table, Abs(), ok)
    {
      ghost var s := Abs();
      ghost var g := FrameOf(Walk(s, table));
      ghost var lands := intact && Walk(s, table) != 0;
      assert lands ==> ZeroedTo(s.mem[g], 0) == s.mem[g];
      for i := 0 to 1024
        invariant Sound() && frames.Used() == s.used
        invariant intact && !lands ==> i == 0 && mem[..] == s.mem
        invariant lands ==> mem[..] == s.mem[g := ZeroedTo(s.mem[g], i)]
      {
        if lands {
          TranslationOutside(s, g, mem[g], table);
          assert mem[..] == s.mem[g := mem[g]];
        }
        ok := StoreWord(table, i, 0);
        if !ok { return; }
        assert lands ==> mem[g] == ZeroedTo(s.mem[g], i + 1);
      }
      assert lands ==> mem[g] == ZeroFrame();
      ok := true;
    }

    /** The branch of `vmm_map_page` for a missing table: allocate it, zero it, enter it in the
        directory. */
    method NewTable(pdIndex: nat) returns (r: MapStatus, table: nat)
      requires Good() && pdIndex < 1024 && (intact ==> !Present(Pde(Abs(), pdIndex)))
      modifies mem, frames`usedPages, frames.memoryMap
      ensures Sound() && old(frames.Used()) <= frames.Used() && table < PAGES
      ensures intact ==> TableEnds(old(Abs()), pdIndex, r, table, Abs())
    {
      hide Tidy, Spare, TableAdded, TableSound, ZeroFrame, Steady, Inv, Sane, WalkIn, Present, FrameOf, WordStored,
           Cleared;
      ghost var s := Abs();
      table := 0;
      var addr := AllocPage();
      if addr == 0 { return Halted, 0; }
      table := addr / 4096;
      AddressOfNewTable(s, Abs(), table);
      var ok := ClearTable(table);
      ghost var u := Abs();
      TableCleared(s, pdIndex, table, u, ok);
      if !ok { return Faulted, table; }
      ok := StoreWord(pd, pdIndex, Entry(table, USER_FLAGS));
      TableEntered(s, pdIndex, table, u, Abs(), ok);
      if !ok { return Faulted, table; }
      r := Done;
    }

    /** `vmm_map_page`. */
    method MapPage(virtualAddr: nat, physicalAddr: nat, flags: nat) returns (r: MapStatus)
      requires Good() && virtualAddr < WORD && physicalAddr < WORD && flags < 4096
      modifies `intact, mem, frames`usedPages, frames.memoryMap
      ensures Sound() && old(frames.Used()) <= frames.Used() && (intact ==> old(intact))
      ensures old(intact) ==>
                MapEnds(Paging.MapPage(old(Abs()), virtualAddr / 4096, Entry(physicalAddr / 4096, flags)),
                        old(Abs()), r, Abs(), intact)
    {
      hide Tidy, LeastFree, Inv, Sane, Spare, Walk, WalkIn, TableEnds, MapEnds, WordStored, Paging.MapPage, FrameOf,
           Entry, Present;
      ghost var s := Abs();
      var pdIndex := virtualAddr / 0x40_0000;
      var ptIndex := virtualAddr / 0x1000 % 0x400;
      var entry := Entry(physicalAddr / 4096, flags);
      AddressesOfTables(s, pdIndex);
      var pde := LoadWord(pd, pdIndex);
      if pde == None { return Faulted; }
      var table: nat;
      if !Present(pde.value) {
        r, table := NewTable(pdIndex);
        if r != Done {
          NoTableEnds(s, virtualAddr / 4096, entry, r, table, Abs());
          return;
        }
      } else {
        FrameOfWord(pde.value);
        table := FrameOf(pde.value);
      }
      ghost var t := Abs();
      var ok := StoreWord(table, ptIndex, entry);
      LastStore(s, virtualAddr / 4096, entry, t, table, Abs(), ok);
      if !ok { return Faulted; }
      r := Done;
      intact := intact && (Present(Pde(s, pdIndex)) || table < LOW);
    }

    method MapKernelPage(virtualAddr: nat, physicalAddr: nat) returns (r: MapStatus)
      requires Good() && virtualAddr < WORD && physicalAddr < WORD
      modifies `intact, mem, frames`usedPages, frames.memoryMap
      ensures Sound() && old(frames.Used()) <= frames.Used() && (intact ==> old(intact))
      ensures old(intact) ==>
                MapEnds(Paging.MapPage(old(Abs()), virtualAddr / 4096, Entry(physicalAddr / 4096, KERNEL_FLAGS)),
                        old(Abs()), r, Abs(), intact)
      ensures r == Done && intact ==> EntryIs(Abs(), virtualAddr / 4096, physicalAddr / 4096, false)
    {
      ghost var s := Abs();
      r := MapPage(virtualAddr, physicalAddr, KERNEL_FLAGS);
      if r == Done && intact { KernelPageMapped(s, virtualAddr / 4096, physicalAddr / 4096, Abs()); }
    }

    method MapUserPage(virtualAddr: nat, physicalAddr: nat) returns (r: MapStatus)
      requires Good() && virtualAddr < WORD && physicalAddr < WORD
      modifies `intact, mem, frames`usedPages, frames.memoryMap
      ensures Sound() && old(frames.Used()) <= frames.Used() && (intact ==> old(intact))
      ensures old(intact) ==>
                MapEnds(Paging.MapPage(old(Abs()), virtualAddr / 4096, Entry(physicalAddr / 4096, USER_FLAGS)),
                        old(Abs()), r, Abs(), intact)
      ensures r == Done && intact ==> EntryIs(Abs(), virtualAddr / 4096, physicalAddr / 4096, true)
    {
      ghost var s := Abs();
      r := MapPage(virtualAddr, physicalAddr, USER_FLAGS);
      if r == Done && intact { UserPageMapped(s, virtualAddr / 4096, physicalAddr / 4096, Abs()); }
    }

    /** `pmm_alloc_page`, seen from the whole machine. */
    method AllocPage() returns (addr: nat)
      requires Sound()
      modifies frames`usedPages, frames.memoryMap
      ensures Sound() && addr < WORD
      ensures if LeastFree(old(Abs())) == mem.Length then addr == 0 && Abs() == old(Abs())
              else addr == 4096 * LeastFree(old(Abs())) && addr != 0 && Abs() == Taken(old(Abs()))
      ensures old(Good()) ==> Good()
    {
      ghost var s := Abs();
      addr := frames.AllocPage();
      if addr == 0 {
        assert Abs() == s;
      } else {
        AfterTaking(s);
      }
    }

    lemma AfterTaking(s: Sys)
      requires LeastFree(s) < |s.mem|
      ensures Sane(s) ==> Sane(Taken(s))
      ensures Spare(Taken(s)) <= Spare(s)
    {
      SpareShrinks(s, Taken(s));
      if Sane(s) {
        TakenSane(s);
      }
    }

    /** `pmm_free_page` of a frame's address. */
    method FreePage(addr: nat)
      requires Sound() && addr >= 4096
      modifies frames`usedPages, frames.memoryMap
      ensures Sound() && Abs() == Freed(old(Abs()), addr / 4096)
    {
      frames.FreePage(addr);
      assert mem[..] == old(mem[..]);
    }

    /** The pair of calls made for every page of a program: allocate a frame, map it for the user. */
    method MapNewPage(virtualAddr: nat) returns (r: NewPage)
      requires Good() && virtualAddr < WORD && LOW <= virtualAddr / 4096
      modifies `intact, mem, frames`usedPages, frames.memoryMap
      ensures Sound() && old(frames.Used()) <= frames.Used() && (intact ==> old(intact))
      ensures r != Stop ==> Good()
      ensures old(intact) ==>
                match MapNew(old(Abs()), virtualAddr / 4096)
                case Next(t) => r == Fresh && Abs() == t && intact
                case Strayed(t) => r == Fresh && Abs() == t && !intact
                case OutOfFrames(t) => r == NoMemory && Abs() == t && intact
                case Stopped => r == Stop
    {
      hide Inv, Tidy, Sane, Paging.MapPage, Spare, LeastFree, Entry;
      ghost var s := Abs();
      var phys := AllocPage();
      if phys == 0 { return NoMemory; }
      ghost var t := Abs();
      var status := MapUserPage(virtualAddr, phys);
      AfterMapping(s, virtualAddr / 4096);
      if status != Done { return Stop; }
      SpareShrinks(t, Abs());
      r := Fresh;
    }

    lemma AfterMapping(s: Sys, page: nat)
      requires LOW <= page < PAGES
      ensures Sane(s) && MapNew(s, page).Next? ==> Sane(MapNew(s, page).s)
      ensures Sane(s) && MapNew(s, page).Strayed? ==> Spare(MapNew(s, page).s) == 0
    {
      if Sane(s) {
        if MapNew(s, page).Next? {
          MapNewKeeps(s, page, MapNew(s, page).s);
          TidyStays(s, MapNew(s, page).s);
        } else {
          MapNewShort(s, page);
        }
      }
    }

    /** One byte stored at a virtual address; false for a page fault. */
    method StoreByte(a: nat, b: Byte) returns (ok: bool)
      requires Sound() && a < WORD
      modifies mem
      ensures Sound() && frames.Used() == old(frames.Used())
      ensures match UserMemory.StoreByte(old(mem[..]), pd, a, b)
              case None => !ok && mem[..] == old(mem[..])
              case Some(m) => ok && mem[..] == m
    {
      var e := WalkIn(mem[..], pd, a / 4096);
      var f := FrameOf(e);
      if e == 0 || f >= mem.Length { return false; }
      mem[f] := SaveByte(mem[f], a % 4096, b);
      return true;
    }

    /** `memcpy` to a virtual address; false when it faults. */
    method CopyIn(dest: nat, src: seq<Byte>, count: nat) returns (ok: bool)
      requires Sound() && count <= |src| && dest + count <= WORD
      modifies mem
      ensures Sound() && frames.Used() == old(frames.Used())
      ensures match StoreAll(old(mem[..]), pd, dest, src, count)
              case None => !ok
              case Some(m) => ok && mem[..] == m
    {
      hide UserMemory.StoreByte, WalkIn;
      ghost var before := mem[..];
      var i, d := 0, dest;
      while i < count
        invariant i <= count && d == dest + i
        invariant Sound() && frames.Used() == old(frames.Used())
        invariant Stored(before, pd, dest, src, i, mem[..])
      {
        StoreAllNext(before, pd, dest, src, i, mem[..]);
        ok := StoreByte(d, src[i]);
        i := i + 1;
        if !ok {
          StoreAllFails(before, pd, dest, src, i, count);
          return;
        }
        d := d + 1;
      }
      ok := true;
    }

    /** `memset` at a virtual address; false when it faults. */
    method Fill(dest: nat, val: Byte, count: nat) returns (ok: bool)
      requires Sound() && dest + count <= WORD
      modifies mem
      ensures Sound() && frames.Used() == old(frames.Used())
      ensures match StoreAll(old(mem[..]), pd, dest, Repeat(val, count), count)
              case None => !ok
              case Some(m) => ok && mem[..] == m
    {
      hide UserMemory.StoreByte, WalkIn;
      ghost var src := Repeat(val, count);
      ghost var before := mem[..];
      ghost var done: nat := 0;
      var n, a := count, dest;
      while n > 0
        invariant 0 <= n <= count && done == count - n && a == dest + done
        invariant Sound() && frames.Used() == old(frames.Used())
        invariant Stored(before, pd, dest, src, done, mem[..])
      {
        StoreAllNext(before, pd, dest, src, done, mem[..]);
        n := n - 1;
        ok := StoreByte(a, val);
        done := done + 1;
        if !ok {
          StoreAllFails(before, pd, dest, src, done, count);
          return;
        }
        a := a + 1;
      }
      ok := true;
    }
  }

  lemma FrameOfWord(w: Word32)
    ensures FrameOf(w) < PAGES
  {
  }

  lemma DirectoryReached(s: Sys)
    requires Inv(s)
    ensures Walk(s, s.pd) != 0 && FrameOf(Walk(s, s.pd)) == s.pd
  {
    assert IdentityAt(s, s.pd);
  }

  lemma TableReached(s: Sys, i: nat)
    requires Inv(s) && i < 1024 && Present(Pde(s, i))
    ensures var t := FrameOf(Pde(s, i)); t < |s.mem| && Walk(s, t) != 0 && FrameOf(Walk(s, t)) == t
  {
    assert TableSound(s, i);
    assert IdentityAt(s, FrameOf(Pde(s, i)));
  }

  lemma AddressOfNewTable(s: Sys, t: Sys, f: nat)
    requires Shape(s) && f == LeastFree(s) < |s.mem| && t == Taken(s)
    ensures Sane(s) ==> Steady(t, f)
  {
    if Sane(s) {
      TakenSteady(s);
    }
  }

  lemma TableCleared(s: Sys, i: nat, f: nat, u: Sys, ok: bool)
    requires Shape(s) && i < 1024 && f == LeastFree(s) < |s.mem|
    ensures Sane(s) && Cleared(Taken(s), f, u, ok) && !ok ==> TableEnds(s, i, Faulted, f, u)
  {
  }

  /** The directory is reached after the clearing as before. */
  lemma TableEntered(s: Sys, i: nat, f: nat, u: Sys, v: Sys, ok: bool)
    requires Shape(s) && Shape(u) && u.pd == s.pd && i < 1024 && f == LeastFree(s) < |s.mem|
    requires WordStored(u, u.pd, i, Entry(f, USER_FLAGS), v, ok)
    ensures Sane(s) && Cleared(Taken(s), f, u, true) ==> ok && TableEnds(s, i, Done, f, v)
  {
    if Sane(s) && Cleared(Taken(s), f, u, true) {
      var t, g := Taken(s), FrameOf(Walk(s, f));
      TakenSteady(s);
      TranslationOutside(t, g, ZeroFrame(), t.pd);
      DirectoryReached(t);
    }
  }

  lemma AddressesOfTables(s: Sys, i: nat)
    requires Shape(s) && i < 1024
    ensures Sane(s) ==> Inv(s) && Walk(s, s.pd) != 0 && FrameOf(Walk(s, s.pd)) == s.pd
    ensures Sane(s) && Present(Pde(s, i)) ==>
              var t := FrameOf(Pde(s, i)); t < |s.mem| && Walk(s, t) != 0 && FrameOf(Walk(s, t)) == t
  {
    if Sane(s) {
      DirectoryReached(s);
      if Present(Pde(s, i)) {
        TableReached(s, i);
      }
    }
  }

  /** No table, no mapping. */
  lemma NoTableEnds(s: Sys, page: nat, entry: nat, r: MapStatus, table: nat, t: Sys)
    requires Shape(s) && page < PAGES && entry < WORD && r != Done
    ensures Sane(s) && !Present(Pde(s, page / 1024)) && TableEnds(s, page / 1024, r, table, t) ==>
              MapEnds(Paging.MapPage(s, page, entry), s, r, t, true)
  {
  }

  /** The store of the entry ends the call. */
  lemma LastStore(s: Sys, page: nat, entry: nat, t: Sys, table: nat, u: Sys, ok: bool)
    requires Shape(s) && Shape(t) && page < PAGES && entry < WORD && table < PAGES
    requires WordStored(t, table, page % 1024, entry, u, ok)
    ensures Sane(s) && Present(Pde(s, page / 1024)) && t == s && table == FrameOf(Pde(s, page / 1024)) ==>
              ok && MapEnds(Paging.MapPage(s, page, entry), s, Done, u, true)
    ensures Sane(s) && !Present(Pde(s, page / 1024)) && TableEnds(s, page / 1024, Done, table, t) ==>
              ok && MapEnds(Paging.MapPage(s, page, entry), s, Done, u, table < LOW)
  {
    hide Inv, Tidy, TableThrough, TableAdded;
    if Sane(s) && Present(Pde(s, page / 1024)) {
      TableReached(s, page / 1024);
    } else if Sane(s) && TableEnds(s, page / 1024, Done, table, t) {
      MissingTable(s, page, entry, table);
    }
  }

  /** Where the stores to a missing table go. */
  lemma MissingTable(s: Sys, page: nat, entry: nat, f: nat)
    requires Shape(s) && page < PAGES && entry < WORD && f < PAGES
    ensures var g := FrameOf(Walk(s, f));
            Sane(s) && !Present(Pde(s, page / 1024)) && f == LeastFree(s) < |s.mem| &&
            Walk(s, f) != 0 && g < |s.mem| ==>
              var t := TableAdded(s, page / 1024, f, g);
              && WalkIn(t.mem, t.pd, f) == Walk(s, f)
              && t.(mem := t.mem[g := t.mem[g][page % 1024 := entry]]) == TableThrough(s, page, entry, f, g)
              && (g == f <==> f < LOW)
  {
    var g, u := FrameOf(Walk(s, f)), Taken(s);
    if Sane(s) && !Present(Pde(s, page / 1024)) && f == LeastFree(s) < |s.mem| && Walk(s, f) != 0 && g < |s.mem| {
      TakenSteady(s);
      TableAddedWalk(u, page, entry, f, g);
      assert TableAdded(u, page / 1024, f, g) == TableAdded(s, page / 1024, f, g);
      assert TableThrough(u, page, entry, f, g) == TableThrough(s, page, entry, f, g);
    }
  }

  function Repeat(b: Byte, n: nat): (bs: seq<Byte>)
    ensures |bs| == n && forall k :: 0 <= k < n ==> bs[k] == b
    decreases n
  {
    if n == 0 then [] else Repeat(b, n - 1) + [b]
  }

  lemma StoreAllNext(mem: seq<Frame>, pd: nat, a: nat, bytes: seq<Byte>, n: nat, m: seq<Frame>)
    requires pd < |mem| && n < |bytes| && a + n < WORD
    requires Stored(mem, pd, a, bytes, n, m)
    ensures |m| == |mem| && StoreAll(mem, pd, a, bytes, n + 1) == UserMemory.StoreByte(m, pd, a + n, bytes[n])
    ensures forall u :: UserMemory.StoreByte(m, pd, a + n, bytes[n]) == Some(u) ==>
                        Stored(mem, pd, a, bytes, n + 1, u)
  {
  }

  /** `m` is memory after the first `n` bytes have been stored without a fault. */
  ghost predicate Stored(mem: seq<Frame>, pd: nat, a: nat, bytes: seq<Byte>, n: nat, m: seq<Frame>)
    requires pd < |mem| && n <= |bytes| && a + n <= WORD
  {
    StoreAll(mem, pd, a, bytes, n) == Some(m)
  }

  /** A store that faults is not made good by the ones after it. */
  lemma {:induction false} StoreAllFails(mem: seq<Frame>, pd: nat, a: nat, bytes: seq<Byte>, n: nat, count: nat)
    requires pd < |mem| && n <= count <= |bytes| && a + count <= WORD
    requires StoreAll(mem, pd, a, bytes, n) == None
    ensures StoreAll(mem, pd, a, bytes, count) == None
    decreases count - n
  {
    if n < count {
      StoreAllFails(mem, pd, a, bytes, n + 1, count);
    }
  }

  ghost predicate IdentityTable(f: Frame, base: nat)
    requires base <= 0x400
  {
    forall k :: 0 <= k < 1024 ==> f[k] == Entry(base + k, KERNEL_FLAGS)
  }

  /** What `vmm_init` leaves in the directory and the first two tables. */
  ghost predicate Initial(s: Sys, firstTable: nat, secondTable: nat) {
    && Shape(s) && firstTable < |s.mem| && secondTable < |s.mem|
    && s.mem[s.pd][0] == Entry(firstTable, KERNEL_FLAGS)
    && s.mem[s.pd][1] == Entry(secondTable, KERNEL_FLAGS)
    && (forall k :: 2 <= k < 1024 ==> s.mem[s.pd][k] == 0)
    && IdentityTable(s.mem[firstTable], 0) && IdentityTable(s.mem[secondTable], 0x400)
  }

  /** The words `vmm_init` leaves: two directory entries and two tables, all present, writable and the kernel's. */
  ghost predicate BootTables(s: Sys, firstTable: nat, secondTable: nat) {
    && Shape(s) && firstTable < |s.mem| && secondTable < |s.mem|
    && s.mem[s.pd][0] == 4096 * firstTable + 3 && s.mem[s.pd][1] == 4096 * secondTable + 3
    && (forall i :: 2 <= i < 1024 ==> s.mem[s.pd][i] == 0)
    && (forall k :: 0 <= k < 1024 ==> s.mem[firstTable][k] == 4096 * k + 3)
    && (forall k :: 0 <= k < 1024 ==> s.mem[secondTable][k] == 4096 * (1024 + k) + 3)
  }

  lemma InitialWords(s: Sys, firstTable: nat, secondTable: nat)
    requires Initial(s, firstTable, secondTable)
    ensures BootTables(s, firstTable, secondTable)
  {
  }

  lemma WalkVia(s: Sys, p: nat, i: nat, k: nat, t: nat, entry: nat)
    requires Shape(s) && p == 1024 * i + k && i < 1024 && k < 1024
    requires Present(Pde(s, i)) && FrameOf(Pde(s, i)) == t < |s.mem| && s.mem[t][k] == entry && Present(entry)
    ensures Walk(s, p) == entry
  {
    assert p / 1024 == i && p % 1024 == k;
  }

  lemma EntryIsPresent(frame: nat)
    requires frame < PAGES
    ensures Present(Entry(frame, KERNEL_FLAGS))
  {
  }

  lemma InitialWalk(s: Sys, firstTable: nat, secondTable: nat, p: nat)
    requires Initial(s, firstTable, secondTable) && p < PAGES
    ensures Walk(s, p) == if p < LOW then Entry(p, KERNEL_FLAGS) else 0
  {
    hide Entry, Present, Walk;
    if p < LOW {
      EntryIsPresent(p);
      EntryIsPresent(firstTable);
      EntryIsPresent(secondTable);
      if p < 1024 {
        assert s.mem[firstTable][p] == Entry(0 + p, KERNEL_FLAGS);
        WalkVia(s, p, 0, p, firstTable, Entry(p, KERNEL_FLAGS));
      } else {
        assert s.mem[secondTable][p - 1024] == Entry(0x400 + (p - 1024), KERNEL_FLAGS);
        WalkVia(s, p, 1, p - 1024, secondTable, Entry(p, KERNEL_FLAGS));
      }
    } else {
      NoTable(s, p);
    }
  }

  lemma NoTable(s: Sys, p: nat)
    requires Shape(s) && p < PAGES && Pde(s, p / 1024) == 0
    ensures Walk(s, p) == 0
  {
  }

  lemma InitialTables(s: Sys, firstTable: nat, secondTable: nat, i: nat)
    requires Initial(s, firstTable, secondTable) && i < 1024
    ensures i < 2 ==> FrameOf(Pde(s, i)) == if i == 0 then firstTable else secondTable
    ensures Present(Pde(s, i)) <==> i < 2
  {
    if i >= 2 {
      assert s.mem[s.pd][i] == 0;
    }
  }

  /** The tables `vmm_init` writes meet the invariant. */
  lemma InitialInv(s: Sys, firstTable: nat, secondTable: nat)
    requires Initial(s, firstTable, secondTable)
    requires s.pd in s.used && firstTable in s.used && secondTable in s.used
    requires s.pd < LOW && firstTable < LOW && secondTable < LOW
    requires s.pd != firstTable && s.pd != secondTable && firstTable != secondTable
    requires forall f: nat :: InRange(s, f)
    ensures Sane(s) && Tables(s) == {0, 1} && forall p: nat :: LOW <= p < PAGES ==> UnmappedAt(s, p)
  {
    forall i: nat
      ensures i in Tables(s) <==> i in {0, 1}
    {
      if i < 1024 { InitialTables(s, firstTable, secondTable, i); }
    }
    forall i: nat | i < 1024
      ensures TableSound(s, i)
    {
      InitialTables(s, firstTable, secondTable, i);
    }
    forall i: nat, j: nat | i < 1024 && j < 1024
      ensures TablesDiffer(s, i, j)
    {
      InitialTables(s, firstTable, secondTable, i);
      InitialTables(s, firstTable, secondTable, j);
    }
    forall p: nat | p < LOW
      ensures IdentityAt(s, p)
    {
      InitialWalk(s, firstTable, secondTable, p);
    }
    forall p: nat | LOW <= p < PAGES
      ensures UnmappedAt(s, p)
    {
      InitialWalk(s, firstTable, secondTable, p);
    }
  }

  /** A frame whose first `n` words are zeroed. */
  function ZeroedTo(f: Frame, n: nat): Frame {
    seq(1024, k requires 0 <= k < 1024 => if k < n then 0 else f[k])
  }
}
