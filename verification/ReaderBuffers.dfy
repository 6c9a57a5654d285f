/** The reader's buffer as memory behind a virtual address: where the line goes when Enter is pressed. The
    address is translated then, not when SYS_GETS was called. */
module ReaderBuffers {
  import opened Words
  import opened Options
  import opened Paging
  import opened Bytes
  import opened Windows
  import opened UserMemory
  import opened Vmm
  import opened UserStack
  import opened Process

  lemma {:induction false} StoreAllPrefix(mem: seq<Frame>, pd: nat, a: nat, x: seq<Byte>, y: seq<Byte>, n: nat)
    requires pd < |mem| && n <= |x| && n <= |y| && a + n <= WORD && x[..n] == y[..n]
    ensures StoreAll(mem, pd, a, x, n) == StoreAll(mem, pd, a, y, n)
    decreases n
  {
    if n > 0 {
      assert x[..n - 1] == x[..n][..n - 1] && y[..n - 1] == y[..n][..n - 1];
      assert x[n - 1] == x[..n][n - 1] && y[n - 1] == y[..n][n - 1];
      StoreAllPrefix(mem, pd, a, x, y, n - 1);
    }
  }

  /** The copying of `keyboard_process_char_for_gets`: the line, then a NUL behind it; false when a store
      faults. */
  method CopyLine(m: Machine, addr: nat, line: seq<Byte>) returns (ok: bool)
    requires m.Sound() && addr + |line| + 1 <= WORD
    modifies m.mem
    ensures m.Sound() && m.frames.Used() == old(m.frames.Used())
    ensures match StoreAll(old(m.mem[..]), m.pd, addr, line + [0], |line| + 1)
            case None => !ok
            case Some(mem) => ok && m.mem[..] == mem
  {
    hide UserMemory.StoreByte;
    ghost var mem, bytes := m.mem[..], line + [0];
    StoreAllPrefix(mem, m.pd, addr, line, bytes, |line|);
    ok := m.CopyIn(addr, line, |line|);
    if ok { ok := m.StoreByte(addr + |line|, 0); }
  }

  /** Memory when the line has been copied into a buffer whose pages lead to frames of data, each to its
      own. */
  function Copied(s: Sys, w: Window, addr: nat, line: seq<Byte>): Sys
    requires Covers(w, addr, |line| + 1)
  {
    s.(mem := PutAll(w, s.mem, addr, line + [0], |line| + 1))
  }

  /** What is read at an address after the line has been copied. */
  ghost predicate ReadsLine(s: Sys, t: Sys, addr: nat, line: seq<Byte>, c: nat) {
    && s.pd < |s.mem| && t.pd < |t.mem| && c < WORD
    && UserByteAt(t.mem, t.pd, c) ==
       if addr <= c <= addr + |line| then Some((line + [0])[c - addr]) else UserByteAt(s.mem, s.pd, c)
  }

  lemma UserReadsGet(base: set<nat>, s: Sys, w: Window, c: nat)
    requires Inv(s) && Backed(base, s, w) && Covers(w, c, 1)
    ensures c < WORD && UserByteAt(s.mem, s.pd, c) == Some(Get(w, s.mem, c))
  {
    assert PageBacked(base, s, w, c / 4096 - w.first);
    UserReads(base, s, c / 4096, FrameBehind(w, c), c);
  }

  lemma OnlyWindowItself(mem: seq<Frame>, w: Window)
    ensures OnlyWindow(mem, w, mem)
  {
  }

  /** Then no store faults, and nothing but those frames changes. */
  lemma CopyStays(base: set<nat>, s: Sys, w: Window, addr: nat, line: seq<Byte>, t: Sys)
    requires Inv(s) && Backed(base, s, w) && Covers(w, addr, |line| + 1) && t == Copied(s, w, addr, line)
    ensures addr + |line| + 1 <= WORD
    ensures StoreAll(s.mem, s.pd, addr, line + [0], |line| + 1) == Some(t.mem)
    ensures Inv(t) && Backed(base, t, w) && forall p: nat :: p < PAGES ==> SameWalk(s, t, p)
    ensures forall f: nat :: f < |s.mem| && f !in w.frames ==> f < |t.mem| && t.mem[f] == s.mem[f]
  {
    hide PutAll, StoreAll, PageBacked, TableSound, TablesDiffer;
    var bytes, n := line + [0], |line| + 1;
    OnlyWindowItself(s.mem, w);
    StoreAllIsPutAll(base, s, w, s.mem, addr, bytes, n);
    PutAllOnlyWindow(s.mem, w, s.mem, addr, bytes, n);
    DataInv(base, s, w, t.mem);
    DataBacked(base, s, w, t.mem);
    forall p: nat | p < PAGES
      ensures SameWalk(s, t, p)
    {
      TranslationKept(base, s, w, t.mem, p);
    }
    forall f: nat | f < |s.mem| && f !in w.frames
      ensures t.mem[f] == s.mem[f]
    {
      PutAllElsewhere(w, s.mem, addr, bytes, n, f);
    }
  }

  /** The program reads the line and the NUL at the buffer's address, and what it read before at any other
      address of those pages. */
  lemma LineIsRead(base: set<nat>, s: Sys, w: Window, addr: nat, line: seq<Byte>, t: Sys, c: nat)
    requires Inv(s) && Backed(base, s, w) && Covers(w, addr, |line| + 1) && t == Copied(s, w, addr, line)
    requires Covers(w, c, 1)
    ensures ReadsLine(s, t, addr, line, c)
  {
    hide PutAll, StoreAll, UserByteAt, Get, TableSound, TablesDiffer;
    CopyStays(base, s, w, addr, line, t);
    BackedDistinct(base, s, w);
    PutAllThenGet(w, s.mem, addr, line + [0], |line| + 1, c);
    UserReadsGet(base, s, w, c);
    UserReadsGet(base, t, w, c);
  }

  // ----- between the call and the Enter -----

  ghost predicate SamePage(s: Sys, t: Sys, w: Window, i: nat) {
    && Shape(s) && Shape(t)
    && (i < |w.frames| ==> w.first + i < PAGES && SameWalk(s, t, w.first + i))
  }

  /** While the buffer's pages keep their translations, the line lands in the frames the buffer had when
      SYS_GETS was called. */
  lemma LineReachesCaller(base: set<nat>, s: Sys, t: Sys, w: Window)
    requires Backed(base, s, w) && Grew(s, t)
    requires forall i: nat :: SamePage(s, t, w, i)
    ensures Backed(base, t, w)
  {
    forall i: nat
      ensures PageBacked(base, t, w, i)
    {
      assert SamePage(s, t, w, i);
      if i < |w.frames| { PageBackedKept(base, s, t, w, i); }
    }
  }

  /** The user stack as it is mapped now. */
  function StackNow(t: Sys): (w: Window)
    requires Shape(t)
    ensures StackWindow(w)
  {
    Window(STACK_FIRST_PAGE, [FrameOf(Walk(t, STACK_FIRST_PAGE)), FrameOf(Walk(t, STACK_FIRST_PAGE + 1)),
                              FrameOf(Walk(t, STACK_FIRST_PAGE + 2)), FrameOf(Walk(t, STACK_FIRST_PAGE + 3))])
  }

  lemma StackIsBacked(base: set<nat>, t: Sys)
    requires Shape(t) && OwnStack(base, t)
    ensures Backed(base, t, StackNow(t))
    ensures forall f: nat :: f in StackNow(t).frames ==> f !in base
  {
    var w := StackNow(t);
    forall i: nat
      ensures PageBacked(base, t, w, i) && (i < |w.frames| ==> w.frames[i] !in base)
    {
      assert OwnStackPage(base, t, w.first + i);
    }
    forall i: nat, j: nat
      ensures Differ(w.frames, i, j)
    {
      assert StackPagesDiffer(t, w.first + i, w.first + j);
    }
  }

  /** A frame of data in use at the call has not changed. */
  ghost predicate Spared(s: Sys, u: Sys, f: nat) {
    Shape(s) && (f in s.used && f < |s.mem| && NotTable(s, f) ==> f < |u.mem| && u.mem[f] == s.mem[f])
  }

  /** The program reads character `i` of the line, or the NUL, in its buffer. */
  ghost predicate HoldsLine(u: Sys, addr: nat, line: seq<Byte>, i: nat) {
    i <= |line| ==>
      u.pd < |u.mem| && addr + i < WORD && UserByteAt(u.mem, u.pd, addr + i) == Some((line + [0])[i])
  }

  /** When a process has been created between the call and the Enter, a line for a buffer on the stack goes
      to the new program's stack: no frame of data that was in use at the call, the caller's own stack among
      them, has changed, and the new program reads the line at the buffer's address. */
  lemma LineGoesToNewStack(s: Sys, t: Sys, file: seq<Byte>, argv: seq<seq<Byte>>, r: NewProcess,
                           addr: nat, line: seq<Byte>, u: Sys)
    requires ProcessBuilt(s, t, file, argv, r) && Shape(t) && Covers(StackNow(t), addr, |line| + 1)
    requires u == Copied(t, StackNow(t), addr, line)
    ensures addr + |line| + 1 <= WORD && StoreAll(t.mem, t.pd, addr, line + [0], |line| + 1) == Some(u.mem)
    ensures forall f: nat :: Spared(s, u, f)
    ensures forall i: nat :: HoldsLine(u, addr, line, i)
  {
    hide Inv, PutAll, StoreAll, Backed, Copied, Covers, StackNow, ImageReady, ProcessBuilt, UserByteAt, NotTable;
    var w := StackNow(t);
    ProcessMeans(s, t, file, argv, r);
    StackIsBacked(s.used, t);
    CopyStays(s.used, t, w, addr, line, u);
    forall f: nat
      ensures Spared(s, u, f)
    {
      assert Kept(s, t, f);
    }
    forall i: nat
      ensures HoldsLine(u, addr, line, i)
    {
      if i <= |line| {
        CoversEach(w, addr, |line| + 1, i);
        LineIsRead(s.used, t, w, addr, line, u, addr + i);
      }
    }
  }

  lemma ProcessMeans(s: Sys, t: Sys, file: seq<Byte>, argv: seq<seq<Byte>>, r: NewProcess)
    requires ProcessBuilt(s, t, file, argv, r)
    ensures Inv(t) && Shape(s) && Shape(t) && |t.mem| == |s.mem| && OwnStack(s.used, t)
    ensures forall f: nat :: Kept(s, t, f)
  {
  }

  lemma CoversEach(w: Window, a: nat, len: nat, i: nat)
    requires Covers(w, a, len) && i < len
    ensures Covers(w, a + i, 1)
  {
  }
}
