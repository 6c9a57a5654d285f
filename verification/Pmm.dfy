/** The physical frame allocator: a bitmap of 32-bit words and a running counter.

    The abstract value of the allocator is the set of frames marked used; the lemmas at the end
    speak about that set, and every method is tied to it. */
module Pmm {

  const PAGE_SIZE: nat := 4096
  const MAX_PAGES: nat := 0x10_0000          // frames of a 32-bit physical address space
  const FIRST_4MB_PAGES: nat := 1024

  // ----- one bitmap word -----

  function And(x: bv32, y: bv32): bv32 { x & y }
  function Or(x: bv32, y: bv32): bv32 { x | y }
  function AndNot(x: bv32, y: bv32): bv32 { x & !y }

  /** `1 << bit`, by doubling. */
  function Mask(bit: nat): bv32
    requires bit < 32
  {
    if bit == 0 then 1 else Mask(bit - 1) << 1
  }

  predicate Bit(word: bv32, bit: nat)
    requires bit < 32
  {
    And(word, Mask(bit)) != 0
  }

  function WithBit(word: bv32, bit: nat): bv32
    requires bit < 32
  {
    Or(word, Mask(bit))
  }

  function WithoutBit(word: bv32, bit: nat): bv32
    requires bit < 32
  {
    AndNot(word, Mask(bit))
  }

  lemma OrSplits(w: bv32, a: bv32, b: bv32)
    ensures And(Or(w, a), b) == Or(And(w, b), And(a, b))
  {
  }

  lemma AndNotSplits(w: bv32, a: bv32, b: bv32)
    ensures And(AndNot(w, a), b) == AndNot(And(w, b), And(a, b))
  {
  }

  lemma WithoutZero(x: bv32)
    ensures Or(x, 0) == x == AndNot(x, 0)
  {
  }

  lemma OrApart(w: bv32, a: bv32, b: bv32)
    requires And(a, b) == 0
    ensures And(Or(w, a), b) == And(w, b)
  {
    OrSplits(w, a, b);
    WithoutZero(And(w, b));
  }

  lemma AndNotApart(w: bv32, a: bv32, b: bv32)
    requires And(a, b) == 0
    ensures And(AndNot(w, a), b) == And(w, b)
  {
    AndNotSplits(w, a, b);
    WithoutZero(And(w, b));
  }

  lemma OntoItself(w: bv32, a: bv32)
    ensures And(Or(w, a), a) == a
    ensures And(AndNot(w, a), a) == 0
  {
  }

  lemma Doubled(x: bv32, y: bv32)
    ensures And(1, x << 1) == 0
    ensures And(x, y) == 0 ==> And(x << 1, y << 1) == 0
    ensures x != 0 && And(x, 0x8000_0000) == 0 ==> x << 1 != 0
  {
    assert (x << 1) & (y << 1) == (x & y) << 1;
  }

  lemma AndCommutes(x: bv32, y: bv32)
    ensures And(x, y) == And(y, x)
  {
  }

  lemma {:induction false} LowerMask(i: nat, j: nat)
    requires i < j < 32
    ensures And(Mask(i), Mask(j)) == 0
  {
    if i == 0 {
      Doubled(Mask(j - 1), 0);
    } else {
      LowerMask(i - 1, j - 1);
      Doubled(Mask(i - 1), Mask(j - 1));
    }
  }

  lemma TopMask()
    ensures Mask(31) == 0x8000_0000
  {
    assert Mask(8) == 0x100;
    assert Mask(16) == 0x1_0000;
    assert Mask(24) == 0x100_0000;
  }

  lemma {:induction false} MaskNotZero(i: nat)
    requires i < 32
    ensures Mask(i) != 0
  {
    if i > 0 {
      MaskNotZero(i - 1);
      LowerMask(i - 1, 31);
      TopMask();
      Doubled(Mask(i - 1), 0);
    }
  }

  /** The masks of different bits have no bit in common. */
  lemma MasksApart(i: nat, j: nat)
    requires i < 32 && j < 32 && i != j
    ensures And(Mask(i), Mask(j)) == 0
  {
    if i < j {
      LowerMask(i, j);
    } else {
      LowerMask(j, i);
      AndCommutes(Mask(i), Mask(j));
    }
  }

  /** Setting a bit of a word changes that bit and no other. */
  lemma SetBit(w: bv32, i: nat, j: nat)
    requires i < 32 && j < 32
    ensures Bit(WithBit(w, i), j) <==> i == j || Bit(w, j)
  {
    if i == j {
      MaskNotZero(i);
      OntoItself(w, Mask(i));
    } else {
      MasksApart(i, j);
      OrApart(w, Mask(i), Mask(j));
    }
  }

  /** Clearing a bit of a word changes that bit and no other. */
  lemma ClearBit(w: bv32, i: nat, j: nat)
    requires i < 32 && j < 32
    ensures Bit(WithoutBit(w, i), j) <==> i != j && Bit(w, j)
  {
    if i == j {
      OntoItself(w, Mask(i));
    } else {
      MasksApart(i, j);
      AndNotApart(w, Mask(i), Mask(j));
    }
  }

  // ----- the bitmap as a set of frames -----

  predicate UsedBit(words: seq<bv32>, page: nat)
    requires page < 32 * |words|
  {
    Bit(words[page / 32], page % 32)
  }

  /** The frames below `total` whose bit is set. */
  ghost function UsedSet(words: seq<bv32>, total: nat): set<nat>
    requires total <= 32 * |words|
  {
    if total == 0 then {}
    else if UsedBit(words, total - 1) then UsedSet(words, total - 1) + {total - 1}
    else UsedSet(words, total - 1)
  }

  lemma {:induction false} InUsedSet(words: seq<bv32>, total: nat, page: nat)
    requires total <= 32 * |words|
    ensures page in UsedSet(words, total) <==> page < total && UsedBit(words, page)
  {
    if total > 0 {
      InUsedSet(words, total - 1, page);
    }
  }

  lemma {:induction false} NoBits(words: seq<bv32>, total: nat)
    requires total <= 32 * |words|
    requires forall k :: 0 <= k < |words| && 32 * k < total ==> words[k] == 0
    ensures UsedSet(words, total) == {}
  {
    if total > 0 {
      assert words[(total - 1) / 32] == 0;
      ZeroWord((total - 1) % 32);
      NoBits(words, total - 1);
    }
  }

  lemma ZeroWord(bit: nat)
    requires bit < 32
    ensures !Bit(0, bit)
  {
  }

  /** Setting the bit of a frame adds that frame to the set and no other. */
  lemma SetPageBit(words: seq<bv32>, total: nat, page: nat)
    requires page < total <= 32 * |words|
    ensures UsedSet(words[page / 32 := WithBit(words[page / 32], page % 32)], total) ==
            UsedSet(words, total) + {page}
  {
    var after := words[page / 32 := WithBit(words[page / 32], page % 32)];
    forall p: nat
      ensures p in UsedSet(after, total) <==> p == page || p in UsedSet(words, total)
    {
      InUsedSet(words, total, p);
      InUsedSet(after, total, p);
      if p < total && p / 32 == page / 32 {
        SetBit(words[page / 32], page % 32, p % 32);
      }
    }
  }

  /** Clearing the bit of a frame removes that frame from the set and no other. */
  lemma ClearPageBit(words: seq<bv32>, total: nat, page: nat)
    requires page < total <= 32 * |words|
    ensures UsedSet(words[page / 32 := WithoutBit(words[page / 32], page % 32)], total) ==
            UsedSet(words, total) - {page}
  {
    var after := words[page / 32 := WithoutBit(words[page / 32], page % 32)];
    forall p: nat
      ensures p in UsedSet(after, total) <==> p != page && p in UsedSet(words, total)
    {
      InUsedSet(words, total, p);
      InUsedSet(after, total, p);
      if p < total && p / 32 == page / 32 {
        ClearBit(words[page / 32], page % 32, p % 32);
      }
    }
  }

  // ----- what an allocator call does to the set -----

  /** The least free frame at or above `from`, or `total` when there is none. */
  function FirstFree(used: set<nat>, total: nat, from: nat): (f: nat)
    requires from <= total
    ensures from <= f <= total
    ensures f < total ==> f !in used
    ensures forall p :: from <= p < f ==> p in used
    decreases total - from
  {
    if from == total || from !in used then from else FirstFree(used, total, from + 1)
  }

  function Frames(n: nat): (s: set<nat>)
    ensures |s| == n && forall p :: p in s <==> 0 <= p < n
  {
    if n == 0 then {} else Frames(n - 1) + {n - 1}
  }

  /** Pigeonhole: the least free frame is at most the number of used ones. So while fewer than
      2048 frames are used, an allocation stays below 8 MB. */
  lemma FirstFreeIsLow(used: set<nat>, total: nat)
    ensures FirstFree(used, total, 0) <= |used|
  {
    var f := FirstFree(used, total, 0);
    assert Frames(f) <= used;
    SubsetSize(Frames(f), used);
  }

  lemma {:induction false} SubsetSize(a: set<nat>, b: set<nat>)
    requires a <= b
    ensures |a| <= |b|
    ensures |a| == |b| ==> a == b
  {
    if a != {} {
      var x :| x in a;
      SubsetSize(a - {x}, b - {x});
    }
  }

  /** An allocation fails exactly when every frame is used. */
  lemma FullExactlyWhenAllUsed(used: set<nat>, total: nat)
    requires used <= Frames(total)
    ensures FirstFree(used, total, 0) == total <==> |used| == total
  {
    SubsetSize(used, Frames(total));
    if FirstFree(used, total, 0) == total {
      assert used == Frames(total);
    }
  }

  /** The frames `pmm_init` marks used are those below 4 MB. */
  lemma LowFramesAre(total: nat, f: nat)
    ensures f in Frames(if total < FIRST_4MB_PAGES then total else FIRST_4MB_PAGES) <==>
            f < total && f * 4096 < 0x40_0000
  {
  }

  // ----- the allocator -----

  class FrameAllocator {
    const memoryMap: array<bv32>
    var totalPages: nat
    var usedPages: nat

    /** What holds between any two calls: the counter is the number of set bits below
        `totalPages`. */
    ghost predicate Counted()
      reads this, memoryMap
    {
      totalPages <= MAX_PAGES && memoryMap.Length == 0x8000 && usedPages == |Used()|
    }

    /** The same with frame 0 in use, so that a frame's address is never 0. */
    ghost predicate Valid()
      reads this, memoryMap
    {
      Counted() && (totalPages > 0 ==> 0 in Used())
    }

    ghost function Used(): (s: set<nat>)
      reads this, memoryMap
      requires totalPages <= MAX_PAGES && memoryMap.Length == 0x8000
    {
      UsedSet(memoryMap[..], totalPages)
    }

    /** The statics before `pmm_init` runs. */
    constructor ()
      ensures Valid() && fresh(memoryMap)
    {
      memoryMap := new bv32[0x8000];
      totalPages, usedPages := 0, 0;
      new;
    }

    method SetPage(page: nat)
      requires totalPages <= MAX_PAGES && memoryMap.Length == 0x8000
      modifies memoryMap
      ensures Used() == if page < totalPages then old(Used()) + {page} else old(Used())
    {
      if page >= totalPages { return; }
      SetPageBit(memoryMap[..], totalPages, page);
      memoryMap[page / 32] := WithBit(memoryMap[page / 32], page % 32);
      assert memoryMap[..] == old(memoryMap[..])[page / 32 := WithBit(old(memoryMap[page / 32]), page % 32)];
    }

    method ClearPage(page: nat)
      requires totalPages <= MAX_PAGES && memoryMap.Length == 0x8000
      modifies memoryMap
      ensures Used() == old(Used()) - {page}
    {
      InUsedSet(memoryMap[..], totalPages, page);
      if page >= totalPages { return; }
      ClearPageBit(memoryMap[..], totalPages, page);
      memoryMap[page / 32] := WithoutBit(memoryMap[page / 32], page % 32);
      assert memoryMap[..] == old(memoryMap[..])[page / 32 := WithoutBit(old(memoryMap[page / 32]), page % 32)];
    }

    method IsPageUsed(page: nat) returns (r: bool)
      requires totalPages <= MAX_PAGES && memoryMap.Length == 0x8000
      ensures r <==> page >= totalPages || page in Used()
    {
      if page >= totalPages { return true; }
      InUsedSet(memoryMap[..], totalPages, page);
      return Bit(memoryMap[page / 32], page % 32);
    }

    /** `pmm_init`: every frame below 4 MB used, every other one free. */
    method Init(memorySize: nat)
      requires memoryMap.Length == 0x8000
      requires memorySize < 0x1_0000_0000
      modifies this, memoryMap
      ensures Valid() && totalPages == memorySize / PAGE_SIZE
      ensures Used() == Frames(if totalPages < FIRST_4MB_PAGES then totalPages else FIRST_4MB_PAGES)
    {
      totalPages := memorySize / PAGE_SIZE;
      usedPages := 0;
      var dwords := totalPages / 32;
      if totalPages % 32 != 0 { dwords := dwords + 1; }
      for i := 0 to dwords
        invariant totalPages == memorySize / PAGE_SIZE && usedPages == 0
        invariant forall k :: 0 <= k < i ==> memoryMap[k] == 0
      {
        memoryMap[i] := 0;
      }
      NoBits(memoryMap[..], totalPages);
      for i := 0 to FIRST_4MB_PAGES
        invariant totalPages == memorySize / PAGE_SIZE
        invariant Used() == Frames(if totalPages < i then totalPages else i)
        invariant usedPages == if totalPages < i then totalPages else i
      {
        var isUsed := IsPageUsed(i);
        if i < totalPages && !isUsed {
          SetPage(i);
          usedPages := usedPages + 1;
        }
      }
    }

    /** `pmm_alloc_page`: the least free frame, marked used; 0 (NULL) when none is free, and while
        frame 0 is in use only then. */
    method AllocPage() returns (addr: nat)
      requires Counted()
      modifies `usedPages, memoryMap
      ensures Counted() && (old(Valid()) ==> Valid())
      ensures var f := FirstFree(old(Used()), totalPages, 0);
              if f == totalPages
              then addr == 0 && Used() == old(Used())
              else addr == f * PAGE_SIZE && (old(Valid()) ==> addr != 0) && Used() == old(Used()) + {f}
      ensures (Used(), addr) == After(old(Used()), totalPages, Alloc)
    {
      ghost var before, used := memoryMap[..], Used();
      for i := 0 to totalPages
        invariant memoryMap[..] == before && usedPages == old(usedPages)
        invariant forall p :: 0 <= p < i ==> p in used
      {
        var isUsed := IsPageUsed(i);
        if !isUsed {
          SetPage(i);
          usedPages := usedPages + 1;
          return i * PAGE_SIZE;
        }
      }
      return 0;
    }

    /** `pmm_free_page`: NULL, addresses out of range and frames already free change nothing. Any
        other address inside frame 0 gives frame 0 back. */
    method FreePage(addr: nat)
      requires Counted()
      modifies `usedPages, memoryMap
      ensures Counted() && (old(Valid()) && !FreesFrameZero(Free(addr)) ==> Valid())
      ensures Used() == After(old(Used()), totalPages, Free(addr)).0
      ensures addr / PAGE_SIZE !in old(Used()) ==> Used() == old(Used())
    {
      if addr == 0 { return; }
      var page := addr / PAGE_SIZE;
      InUsedSet(memoryMap[..], totalPages, page);
      if page >= totalPages { return; }
      var isUsed := IsPageUsed(page);
      if isUsed {
        ClearPage(page);
        usedPages := usedPages - 1;
      }
    }
  }

  // ----- runs of calls -----

  datatype Call = Alloc | Free(addr: nat)

  /** The set after one call, and the address it returns (0 for a free). */
  function After(used: set<nat>, total: nat, c: Call): (r: (set<nat>, nat)) {
    match c
    case Alloc =>
      var f := FirstFree(used, total, 0);
      if f == total then (used, 0) else (used + {f}, f * PAGE_SIZE)
    case Free(addr) =>
      (if addr == 0 then used else used - {addr / PAGE_SIZE}, 0)
  }

  function AfterAll(used: set<nat>, total: nat, calls: seq<Call>): set<nat> {
    if calls == [] then used
    else After(AfterAll(used, total, calls[..|calls| - 1]), total, calls[|calls| - 1]).0
  }

  /** The address the k-th call of a run returns. */
  function Returned(used: set<nat>, total: nat, calls: seq<Call>, k: nat): nat
    requires k < |calls|
  {
    After(AfterAll(used, total, calls[..k]), total, calls[k]).1
  }

  /** A live frame is never handed out again: between two allocations that return the same frame
      there is a call that frees it. */
  lemma {:induction false} NeverHandsOutALiveFrame(used: set<nat>, total: nat, calls: seq<Call>, i: nat, j: nat)
    requires i < j < |calls|
    requires Returned(used, total, calls, i) == Returned(used, total, calls, j) != 0
    ensures exists k :: i < k < j && calls[k].Free? && calls[k].addr != 0 &&
                        calls[k].addr / PAGE_SIZE == Returned(used, total, calls, i) / PAGE_SIZE
  {
    var f := Returned(used, total, calls, i) / PAGE_SIZE;
    assert calls[..i + 1][..i] == calls[..i];
    var k := i + 1;
    while k < j && !(calls[k].Free? && calls[k].addr != 0 && calls[k].addr / PAGE_SIZE == f)
      invariant i < k <= j
      invariant f in AfterAll(used, total, calls[..k])
    {
      assert calls[..k + 1][..k] == calls[..k];
      k := k + 1;
    }
  }

  predicate FreesFrameZero(c: Call) {
    c.Free? && 0 < c.addr < PAGE_SIZE
  }

  /** Frame 0 is in use after every call of the run. */
  ghost predicate FrameZeroUsed(used: set<nat>, total: nat, calls: seq<Call>) {
    0 in AfterAll(used, total, calls) && (calls != [] ==> FrameZeroUsed(used, total, calls[..|calls| - 1]))
  }

  predicate NoneFreesFrameZero(calls: seq<Call>) {
    forall k :: 0 <= k < |calls| ==> !FreesFrameZero(calls[k])
  }

  /** Frame 0 stays used throughout a run, so that 0 is never a frame's address, if and only if no
      call frees an address from 1 to 4095. */
  lemma {:induction false} FrameZeroStaysUsed(used: set<nat>, total: nat, calls: seq<Call>)
    requires 0 in used
    ensures FrameZeroUsed(used, total, calls) <==> NoneFreesFrameZero(calls)
  {
    if calls != [] {
      var before, c := calls[..|calls| - 1], calls[|calls| - 1];
      FrameZeroStaysUsed(used, total, before);
      assert calls == before + [c];
    }
  }
}
