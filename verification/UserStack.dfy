/** The user stack of a new process: its four pages, and the argument block on them. */
module UserStack {
  import opened Words
  import opened Options
  import opened Paging
  import opened Bytes
  import opened Windows
  import opened UserMemory
  import opened Vmm
  import opened Args

  const STACK_TOP: nat := 0xC000_0000
  const STACK_PAGES: nat := 4
  const STACK_BOTTOM: nat := 0xBFFF_C000
  const STACK_FIRST_PAGE: nat := 0xB_FFFC

  // ----- writing the argument block -----

  ghost predicate WrittenAt(w: Window, mem: seq<Frame>, a: nat, bs: seq<Byte>, k: nat) {
    k < |bs| ==> Covers(w, a + k, 1) && Get(w, mem, a + k) == bs[k]
  }

  ghost predicate Written(w: Window, mem: seq<Frame>, a: nat, bs: seq<Byte>) {
    forall k: nat :: WrittenAt(w, mem, a, bs, k)
  }

  lemma WrittenNothing(w: Window, mem: seq<Frame>, a: nat)
    ensures Written(w, mem, a, [])
  {
  }

  /** A block written right behind another extends it. */
  lemma WrittenAppend(w: Window, mem: seq<Frame>, a: nat, x: seq<Byte>, b: nat, y: seq<Byte>)
    requires Distinct(w.frames, |mem|) && Covers(w, a, |x|) && Covers(w, b, |y|) && b == a + |x|
    requires Written(w, mem, a, x)
    ensures Written(w, PutAll(w, mem, b, y, |y|), a, x + y)
  {
    hide PutAll, Distinct;
    var m := PutAll(w, mem, b, y, |y|);
    var z := x + y;
    forall k: nat
      ensures WrittenAt(w, m, a, z, k)
    {
      if k < |z| {
        assert WrittenAt(w, mem, a, x, k);
        PutAllThenGet(w, mem, b, y, |y|, a + k);
      }
    }
  }

  /** A block written below another leaves that one alone. */
  lemma WrittenKept(w: Window, mem: seq<Frame>, a: nat, x: seq<Byte>, b: nat, y: seq<Byte>)
    requires Distinct(w.frames, |mem|) && Covers(w, b, |y|) && b + |y| <= a
    requires Written(w, mem, a, x)
    ensures Written(w, PutAll(w, mem, b, y, |y|), a, x)
  {
    var m := PutAll(w, mem, b, y, |y|);
    forall k: nat
      ensures WrittenAt(w, m, a, x, k)
    {
      assert WrittenAt(w, mem, a, x, k);
      if k < |x| {
        PutAllThenGet(w, mem, b, y, |y|, a + k);
      }
    }
  }

  lemma WrittenBlock(w: Window, mem: seq<Frame>, b: nat, y: seq<Byte>)
    requires Distinct(w.frames, |mem|) && Covers(w, b, |y|)
    ensures Written(w, PutAll(w, mem, b, y, |y|), b, y)
  {
    hide PutAll, Distinct;
    var m := PutAll(w, mem, b, y, |y|);
    forall k: nat
      ensures WrittenAt(w, m, b, y, k)
    {
      if k < |y| {
        PutAllThenGet(w, mem, b, y, |y|, b + k);
      }
    }
  }

  /** The window of the user stack. */
  predicate StackWindow(w: Window) {
    w.first == STACK_FIRST_PAGE && |w.frames| == STACK_PAGES
  }

  /** The stack's window is backed, and memory differs from `t`'s in it alone. */
  ghost predicate OnStackOnly(base: set<nat>, t: Sys, w: Window, mem: seq<Frame>) {
    Inv(t) && Backed(base, t, w) && OnlyWindow(t.mem, w, mem)
  }

  /** Bytes stored on the stack; false when a store faults, which none does while none has gone astray. */
  method PushBytes(m: Machine, a: nat, bytes: seq<Byte>, ghost base: set<nat>, ghost t: Sys, ghost w: Window)
    returns (ok: bool)
    requires m.Sound() && m.pd == t.pd && StackWindow(w) && Covers(w, a, |bytes|)
    requires m.intact ==> OnStackOnly(base, t, w, m.mem[..])
    modifies m.mem
    ensures m.Sound() && m.frames.Used() == old(m.frames.Used())
    ensures m.intact ==> ok && OnStackOnly(base, t, w, m.mem[..])
    ensures m.intact ==> m.mem[..] == PutAll(w, old(m.mem[..]), a, bytes, |bytes|)
  {
    if m.intact {
      StoreAllIsPutAll(base, t, w, m.mem[..], a, bytes, |bytes|);
      PutAllOnlyWindow(t.mem, w, m.mem[..], a, bytes, |bytes|);
    }
    ok := m.CopyIn(a, bytes, |bytes|);
  }

  /** The room the argument block needs: the strings, their pointers with the NULL, and argc. */
  function BlockSize(argv: seq<seq<Byte>>): nat {
    Offset(argv, |argv|) + 4 * (|argv| + 2)
  }

  lemma {:induction false} OffsetMonotone(argv: seq<seq<Byte>>, i: nat, j: nat)
    requires i <= j <= |argv|
    ensures Offset(argv, i) <= Offset(argv, j)
    decreases j
  {
    if i < j {
      OffsetMonotone(argv, i, j - 1);
    }
  }

  /** The two counting loops: argc and the size of the strings. */
  method MeasureArgs(argv: seq<seq<Byte>>) returns (argc: nat, total: nat)
    ensures argc == |argv| && total == Offset(argv, |argv|)
  {
    argc, total := 0, 0;
    while argc < |argv|
      invariant argc <= |argv| && total == Offset(argv, argc)
    {
      var len := 0;
      while len < |argv[argc]|
        invariant len <= |argv[argc]|
      {
        len := len + 1;
      }
      total := total + (len + 1);
      argc := argc + 1;
    }
  }

  /** The pointers' bytes, as `memcpy` reads them from the array of pointers. */
  function PointerBytes(pointers: seq<nat>): (bs: seq<Byte>)
    ensures |bs| == 4 * |pointers|
    decreases |pointers|
  {
    if pointers == [] then []
    else PointerBytes(pointers[..|pointers| - 1]) + ToBytes(pointers[|pointers| - 1], 4)
  }

  lemma AppendPointer(pointers: seq<nat>, p: nat)
    ensures PointerBytes(pointers + [p]) == PointerBytes(pointers) + ToBytes(p, 4)
  {
    assert (pointers + [p])[..|pointers|] == pointers;
  }

  /** `memcpy` of one string with its NUL, behind what is written already. */
  method PushString(m: Machine, at: nat, str: seq<Byte>, ghost start: nat, ghost x: seq<Byte>,
                    ghost base: set<nat>, ghost t: Sys, ghost w: Window)
    returns (ok: bool)
    requires m.Sound() && m.pd == t.pd && StackWindow(w)
    requires at == start + |x| && Covers(w, start, |x|) && Covers(w, at, |str| + 1)
    requires m.intact ==> OnStackOnly(base, t, w, m.mem[..]) && Written(w, m.mem[..], start, x)
    modifies m.mem
    ensures m.Sound() && m.frames.Used() == old(m.frames.Used())
    ensures m.intact ==> ok && OnStackOnly(base, t, w, m.mem[..]) && Written(w, m.mem[..], start, x + (str + [0]))
  {
    if m.intact {
      BackedDistinct(base, t, w);
      WrittenAppend(w, m.mem[..], start, x, at, str + [0]);
    }
    ok := PushBytes(m, at, str + [0], base, t, w);
  }

  lemma NothingYet(argv: seq<seq<Byte>>, start: nat)
    ensures Strings(argv, 0) == [] && Pointers(argv, start, 0) == [] && PointerBytes([]) == []
  {
  }

  /** One more string, and the pointer to it. */
  lemma NextString(argv: seq<seq<Byte>>, i: nat)
    requires i < |argv|
    ensures Strings(argv, i + 1) == Strings(argv, i) + (argv[i] + [0])
    ensures Offset(argv, i + 1) == Offset(argv, i) + |argv[i]| + 1
    ensures Offset(argv, i + 1) <= Offset(argv, |argv|)
  {
    OffsetMonotone(argv, i + 1, |argv|);
  }

  lemma NextItem(argv: seq<seq<Byte>>, i: nat, start: nat, pointers: seq<nat>, write: nat)
    requires i < |argv| && PointerBytes(pointers) == Pointers(argv, start, i) && write == start + Offset(argv, i)
    ensures PointerBytes(pointers + [write]) == Pointers(argv, start, i + 1)
    ensures Strings(argv, i + 1) == Strings(argv, i) + (argv[i] + [0])
    ensures Offset(argv, i + 1) == Offset(argv, i) + |argv[i]| + 1
    ensures Offset(argv, i + 1) <= Offset(argv, |argv|)
  {
    hide ToBytes, PointerBytes, Strings, Offset;
    AppendPointer(pointers, write);
    NextString(argv, i);
  }

  /** The loop that copies the strings and collects their addresses. */
  method PushStrings(m: Machine, argv: seq<seq<Byte>>, start: nat, ghost base: set<nat>, ghost t: Sys, ghost w: Window)
    returns (ok: bool, pointers: seq<nat>)
    requires m.Sound() && m.pd == t.pd && StackWindow(w) && Covers(w, start, Offset(argv, |argv|))
    requires m.intact ==> OnStackOnly(base, t, w, m.mem[..])
    modifies m.mem
    ensures m.Sound() && m.frames.Used() == old(m.frames.Used())
    ensures m.intact ==> ok && OnStackOnly(base, t, w, m.mem[..])
    ensures m.intact ==> Written(w, m.mem[..], start, Strings(argv, |argv|))
    ensures ok ==> PointerBytes(pointers) == Pointers(argv, start, |argv|)
  {
    hide OnStackOnly, Written, Strings, Pointers, PointerBytes;
    pointers := [];
    NothingYet(argv, start);
    WrittenNothing(w, m.mem[..], start);
    var write := start;
    for i := 0 to |argv|
      invariant m.Sound() && m.frames.Used() == old(m.frames.Used())
      invariant m.intact ==> OnStackOnly(base, t, w, m.mem[..]) && Written(w, m.mem[..], start, Strings(argv, i))
      invariant write == start + Offset(argv, i)
      invariant PointerBytes(pointers) == Pointers(argv, start, i)
    {
      NextItem(argv, i, start, pointers, write);
      ok := PushString(m, write, argv[i], start, Strings(argv, i), base, t, w);
      if !ok { return; }
      pointers := pointers + [write];
      write := write + (|argv[i]| + 1);
    }
    ok := true;
  }

  /** The three parts of the block in memory: the strings at `start`, which end at the stack's top,
      the pointers at `at` right below them, argc at `esp` right below those. */
  ghost predicate ArgsWritten(w: Window, mem: seq<Frame>, argv: seq<seq<Byte>>, start: nat, at: nat, esp: nat) {
    && start + Offset(argv, |argv|) == STACK_TOP && at + 4 * (|argv| + 1) == start && esp + 4 == at
    && Written(w, mem, start, Strings(argv, |argv|))
    && Written(w, mem, at, PointerTable(argv, start))
    && Written(w, mem, esp, ToBytes(|argv|, 4))
  }

  /** The whole block, pushed downward from the stack's top. */
  method PushArgs(m: Machine, argv: seq<seq<Byte>>, ghost base: set<nat>, ghost t: Sys, ghost w: Window)
    returns (ok: bool, esp: nat, argvAt: nat, ghost start: nat)
    requires m.Sound() && m.pd == t.pd && StackWindow(w) && BlockSize(argv) <= 4096 * STACK_PAGES
    requires m.intact ==> OnStackOnly(base, t, w, m.mem[..])
    modifies m.mem
    ensures m.Sound() && m.frames.Used() == old(m.frames.Used())
    ensures m.intact ==> ok && OnStackOnly(base, t, w, m.mem[..])
    ensures m.intact ==> ArgsWritten(w, m.mem[..], argv, start, argvAt, esp)
    ensures ok ==> STACK_BOTTOM <= esp < STACK_TOP && argvAt == esp + 4
  {
    hide Backed, Inv, Written, PointerBytes, Strings;
    if m.intact { BackedDistinct(base, t, w); }
    var argc, total := MeasureArgs(argv);
    var currentEsp := STACK_TOP - total;
    start := currentEsp;
    esp, argvAt := currentEsp, currentEsp;
    var pointers;
    ok, pointers := PushStrings(m, argv, currentEsp, base, t, w);
    if !ok { return; }
    AppendPointer(pointers, 0);
    pointers := pointers + [0];
    currentEsp := currentEsp - 4 * (argc + 1);
    argvAt := currentEsp;
    ghost var strings, table := Strings(argv, argc), PointerTable(argv, start);
    if m.intact { PushBelow(w, m.mem[..], start, strings, argvAt, table); }
    ok := PushBytes(m, currentEsp, PointerBytes(pointers), base, t, w);
    if !ok { return; }
    currentEsp := currentEsp - 4;
    if m.intact {
      WrittenKept(w, m.mem[..], start, strings, currentEsp, ToBytes(argc, 4));
      PushBelow(w, m.mem[..], argvAt, table, currentEsp, ToBytes(argc, 4));
    }
    ok := PushBytes(m, currentEsp, ToBytes(argc, 4), base, t, w);
    esp := currentEsp;
  }

  lemma PushBelow(w: Window, mem: seq<Frame>, a: nat, x: seq<Byte>, b: nat, y: seq<Byte>)
    requires Distinct(w.frames, |mem|) && Covers(w, b, |y|) && b + |y| <= a && Written(w, mem, a, x)
    ensures Written(w, PutAll(w, mem, b, y, |y|), a, x) && Written(w, PutAll(w, mem, b, y, |y|), b, y)
  {
    WrittenKept(w, mem, a, x, b, y);
    WrittenBlock(w, mem, b, y);
  }

  // ----- the user stack -----

  /** The directory entries of the stack's pages. */
  function StackTables(): set<nat> {
    RangeTables(STACK_FIRST_PAGE, STACK_PAGES)
  }

  /** What mapping the stack's pages has led to. */
  ghost predicate StackMapped(s: Sys, t: Sys, frames: seq<nat>) {
    && Sane(t) && RangeMapped(s, t, STACK_FIRST_PAGE, frames) && |frames| == STACK_PAGES
    && Took(s, t, STACK_PAGES, StackTables())
  }

  /** The loop that allocates and maps the four stack pages. */
  method MapStack(m: Machine) returns (r: NewPage, ghost frames: seq<nat>)
    requires m.Good()
    modifies m`intact, m.mem, m.frames`usedPages, m.frames.memoryMap
    ensures m.Sound() && old(m.frames.Used()) <= m.frames.Used() && (m.intact ==> old(m.intact))
    ensures r != Stop ==> m.Good()
    ensures r == Fresh ==> |frames| == STACK_PAGES && (m.intact ==> StackMapped(old(m.Abs()), m.Abs(), frames))
    ensures r == NoMemory && m.intact ==> Extends(old(m.Abs()), m.Abs()) && LeastFree(m.Abs()) == m.mem.Length
    ensures old(m.intact) && !(r == Fresh && m.intact) ==> Short(old(m.Abs()), STACK_PAGES, StackTables())
    ensures old(m.intact) && Quiet(old(m.Abs())) && m.mem.Length <= STACK_FIRST_PAGE && r != Stop ==>
              m.intact && (r == NoMemory ==> Quiet(m.Abs()))
    ensures old(m.intact) && StackTables() <= Tables(old(m.Abs())) ==>
              m.intact && r != Stop && (r == NoMemory ==> m.mem.Length < |old(m.Abs()).used| + STACK_PAGES)
  {
    hide Inv, Tidy, Sane, Spare, Extends, RangeMapped, Backed, MapNew, RangeTables, Took, Short, Quiet, Tables,
         LeastFree;
    ghost var s := m.Abs();
    frames := [];
    if m.intact { PartMappedNone(s, STACK_FIRST_PAGE); }
    for i := 0 to STACK_PAGES
      invariant m.Good() && old(m.frames.Used()) <= m.frames.Used() && (m.intact ==> old(m.intact))
      invariant |frames| == i && (m.intact ==> PartMapped(s, m.Abs(), STACK_FIRST_PAGE, frames))
      invariant old(m.intact) && !m.intact ==> Short(s, STACK_PAGES, StackTables())
      invariant old(m.intact) && Quiet(s) && |s.mem| <= STACK_FIRST_PAGE ==> m.intact
      invariant old(m.intact) && StackTables() <= Tables(s) ==> m.intact
    {
      ghost var t := m.Abs();
      ghost var page: nat := STACK_FIRST_PAGE + i;
      if m.intact { MapStep(s, t, STACK_FIRST_PAGE, frames, STACK_PAGES, page); }
      r := m.MapNewPage(STACK_BOTTOM + i * 4096);
      if r != Fresh { return; }
      frames := frames + [LeastFree(t)];
    }
    r := Fresh;
  }

  predicate OnStack(page: nat) {
    STACK_FIRST_PAGE <= page < STACK_FIRST_PAGE + STACK_PAGES
  }

  /** The stack is mapped to frames of its own and holds the argument block. */
  ghost predicate StackReady(s: Sys, t: Sys, w: Window, argv: seq<seq<Byte>>, start: nat, at: nat, esp: nat) {
    && Extends(s, t) && Backed(s.used, t, w) && w.first == STACK_FIRST_PAGE && |w.frames| == STACK_PAGES
    && STACK_BOTTOM <= esp && ArgsWritten(w, t.mem, argv, start, at, esp)
    && (forall p: nat :: p < PAGES && !OnStack(p) ==> SameWalk(s, t, p))
  }

  lemma DataBacked(base: set<nat>, t: Sys, w: Window, m: seq<Frame>)
    requires Inv(t) && Backed(base, t, w) && OnlyWindow(t.mem, w, m)
    ensures Backed(base, t.(mem := m), w)
  {
    forall i: nat
      ensures PageBacked(base, t.(mem := m), w, i)
    {
      assert PageBacked(base, t, w, i);
      if i < |w.frames| {
        TranslationKept(base, t, w, m, w.first + i);
        DataNotTable(base, t, w, m, w.frames[i]);
      }
    }
  }

  lemma StackFilled(s: Sys, t: Sys, frames: seq<nat>, m: seq<Frame>,
                    argv: seq<seq<Byte>>, start: nat, at: nat, esp: nat)
    requires RangeMapped(s, t, STACK_FIRST_PAGE, frames) && |frames| == STACK_PAGES
    requires OnlyWindow(t.mem, Window(STACK_FIRST_PAGE, frames), m)
    requires STACK_BOTTOM <= esp && ArgsWritten(Window(STACK_FIRST_PAGE, frames), m, argv, start, at, esp)
    ensures StackReady(s, t.(mem := m), Window(STACK_FIRST_PAGE, frames), argv, start, at, esp)
    ensures Tables(t.(mem := m)) == Tables(t)
  {
    var w := Window(STACK_FIRST_PAGE, frames);
    DataInv(s.used, t, w, m);
    DataExtends(s, t, w, m);
    DataBacked(s.used, t, w, m);
    forall p: nat | p < PAGES && !OnStack(p)
      ensures SameWalk(s, t.(mem := m), p)
    {
      assert SameWalk(s, t, p);
      TranslationKept(s.used, t, w, m, p);
    }
  }

  /** The stack is ready, and exactly what it needs has been taken. */
  ghost predicate StackTaken(s: Sys, t: Sys, w: Window, argv: seq<seq<Byte>>, start: nat, at: nat, esp: nat) {
    Sane(t) && StackReady(s, t, w, argv, start, at, esp) && Took(s, t, STACK_PAGES, StackTables())
  }

  lemma StackFilledSane(s: Sys, t: Sys, frames: seq<nat>, m: seq<Frame>,
                        argv: seq<seq<Byte>>, start: nat, at: nat, esp: nat)
    requires Sane(s) && StackMapped(s, t, frames)
    requires OnlyWindow(t.mem, Window(STACK_FIRST_PAGE, frames), m)
    requires STACK_BOTTOM <= esp && ArgsWritten(Window(STACK_FIRST_PAGE, frames), m, argv, start, at, esp)
    ensures StackTaken(s, t.(mem := m), Window(STACK_FIRST_PAGE, frames), argv, start, at, esp)
  {
    hide ArgsWritten, RangeMapped, Backed, Inv, StackTables, Tables, Tidy, Extends;
    StackFilled(s, t, frames, m, argv, start, at, esp);
    StackExtends(s, t.(mem := m), Window(STACK_FIRST_PAGE, frames), argv, start, at, esp);
    TidyStays(s, t.(mem := m));
  }

  lemma StackExtends(s: Sys, t: Sys, w: Window, argv: seq<seq<Byte>>, start: nat, at: nat, esp: nat)
    requires StackReady(s, t, w, argv, start, at, esp)
    ensures Extends(s, t)
  {
  }

  lemma StackStaysQuiet(s: Sys, t: Sys, w: Window, argv: seq<seq<Byte>>, start: nat, at: nat, esp: nat)
    requires StackReady(s, t, w, argv, start, at, esp)
    ensures Quiet(s) && |s.mem| <= STACK_FIRST_PAGE ==> Quiet(t)
  {
    if Quiet(s) && |s.mem| <= STACK_FIRST_PAGE {
      forall p: nat | LOW <= p < |t.mem|
        ensures UnmappedAt(t, p)
      {
        assert UnmappedAt(s, p) && SameWalk(s, t, p);
      }
    }
  }

  lemma WindowBacked(s: Sys, t: Sys, frames: seq<nat>)
    requires StackMapped(s, t, frames)
    ensures OnStackOnly(s.used, t, Window(STACK_FIRST_PAGE, frames), t.mem) && Extends(s, t)
  {
  }

  /** The stack's pages and what stands on them. */
  method PrepareStack(m: Machine, argv: seq<seq<Byte>>)
    returns (r: NewPage, esp: nat, argvAt: nat, ghost start: nat, ghost w: Window)
    requires m.Good() && BlockSize(argv) <= 4096 * STACK_PAGES
    modifies m`intact, m.mem, m.frames`usedPages, m.frames.memoryMap
    ensures m.Sound() && old(m.frames.Used()) <= m.frames.Used() && (m.intact ==> old(m.intact))
    ensures r != Stop ==> m.Good()
    ensures r == Fresh ==> STACK_BOTTOM <= esp < STACK_TOP && argvAt == esp + 4
    ensures r == Fresh && m.intact ==> StackTaken(old(m.Abs()), m.Abs(), w, argv, start, argvAt, esp)
    ensures r == NoMemory && m.intact ==> Extends(old(m.Abs()), m.Abs()) && LeastFree(m.Abs()) == m.mem.Length
    ensures old(m.intact) && !(r == Fresh && m.intact) ==> Short(old(m.Abs()), STACK_PAGES, StackTables())
    ensures old(m.intact) && Quiet(old(m.Abs())) && m.mem.Length <= STACK_FIRST_PAGE && r != Stop ==>
              m.intact && Quiet(m.Abs())
    ensures old(m.intact) && StackTables() <= Tables(old(m.Abs())) ==>
              m.intact && r != Stop && (r == NoMemory ==> m.mem.Length < |old(m.Abs()).used| + STACK_PAGES)
  {
    hide Inv, Tidy, Sane, Spare, Extends, RangeMapped, Backed, Took, Short, Quiet, Tables, LeastFree, StackMapped,
         ArgsWritten, StackReady, StackTables;
    ghost var s := m.Abs();
    esp, argvAt, start := 0, 0, 0;
    ghost var frames: seq<nat>;
    r, frames := MapStack(m);
    w := Window(STACK_FIRST_PAGE, frames);
    if r != Fresh { return; }
    ghost var t := m.Abs();
    if m.intact { WindowBacked(s, t, frames); }
    var ok: bool;
    ok, esp, argvAt, start := PushArgs(m, argv, s.used, t, w);
    if !ok { return Stop, esp, argvAt, start, w; }
    SameSpare(t, m.Abs());
    if m.intact {
      StackFilledSane(s, t, frames, m.mem[..], argv, start, argvAt, esp);
      StackStaysQuiet(s, t.(mem := m.mem[..]), w, argv, start, argvAt, esp);
      assert m.Abs() == t.(mem := m.mem[..]);
    }
  }

  ghost predicate AlsoOnStack(s: Sys, t: Sys, page: nat)
    requires Shape(s) && Shape(t)
  {
    page < PAGES ==> (Walk(t, page) != 0 <==> Walk(s, page) != 0 || OnStack(page))
  }

  /** The stack's pages are mapped, and no others that were not before. */
  lemma StackIsMapped(s: Sys, t: Sys, w: Window, argv: seq<seq<Byte>>, start: nat, at: nat, esp: nat, page: nat)
    requires StackReady(s, t, w, argv, start, at, esp)
    ensures AlsoOnStack(s, t, page)
  {
    hide ArgsWritten, Walk, Backed, TableSound, IdentityAt;
    if OnStack(page) {
      BackedIsMapped(s.used, t, w, page - STACK_FIRST_PAGE);
    } else if page < PAGES {
      assert SameWalk(s, t, page);
    }
  }

  lemma BackedIsMapped(base: set<nat>, t: Sys, w: Window, i: nat)
    requires Backed(base, t, w) && i < |w.frames|
    ensures Shape(t) && w.first + i < PAGES && Walk(t, w.first + i) != 0
  {
    assert PageBacked(base, t, w, i);
  }

  /** What a program reads at an address. */
  function MemoryReader(s: Sys): Reader {
    (a: nat) => if s.pd < |s.mem| && a < WORD then UserByteAt(s.mem, s.pd, a) else None
  }

  lemma WrittenHolds(base: set<nat>, s: Sys, w: Window, a: nat, bs: seq<Byte>)
    requires Inv(s) && Backed(base, s, w) && Written(w, s.mem, a, bs)
    ensures Holds(MemoryReader(s), a, bs)
  {
    forall k: nat
      ensures HoldsAt(MemoryReader(s), a, bs, k)
    {
      assert WrittenAt(w, s.mem, a, bs, k);
      if k < |bs| {
        ReadIsGet(base, s, w, s.mem, a + k);
        assert PageBacked(base, s, w, (a + k) / 4096 - w.first);
        UserReads(base, s, (a + k) / 4096, FrameBehind(w, a + k), a + k);
      }
    }
  }

  /** Decoding the finished stack from its pointer gives the caller's argument vector. */
  lemma StackReads(s: Sys, t: Sys, w: Window, argv: seq<seq<Byte>>, start: nat, at: nat, esp: nat)
    requires StackReady(s, t, w, argv, start, at, esp) && AllStrings(argv) && |argv| < WORD
    ensures Decode(MemoryReader(t), esp) == Some(argv)
  {
    WrittenHolds(s.used, t, w, start, Strings(argv, |argv|));
    WrittenHolds(s.used, t, w, at, PointerTable(argv, start));
    WrittenHolds(s.used, t, w, esp, ToBytes(|argv|, 4));
    DecodeIsArgv(MemoryReader(t), start, esp, at, argv);
  }

  lemma WrittenStays(base: set<nat>, t: Sys, u: Sys, w: Window, a: nat, bs: seq<Byte>)
    requires Backed(base, t, w) && Grew(t, u) && Written(w, t.mem, a, bs)
    ensures Written(w, u.mem, a, bs)
  {
    forall k: nat
      ensures WrittenAt(w, u.mem, a, bs, k)
    {
      assert WrittenAt(w, t.mem, a, bs, k);
      if k < |bs| {
        assert PageBacked(base, t, w, (a + k) / 4096 - w.first);
        assert Kept(t, u, FrameBehind(w, a + k));
      }
    }
  }

  /** A prepared stack stays prepared while its translations stay. */
  lemma StackKept(s: Sys, t: Sys, u: Sys, w: Window, argv: seq<seq<Byte>>, start: nat, at: nat, esp: nat)
    requires StackReady(s, t, w, argv, start, at, esp) && Extends(t, u)
    requires forall p: nat :: p < PAGES ==> SameWalk(t, u, p)
    ensures StackReady(s, u, w, argv, start, at, esp)
  {
    ExtendsTransitive(s, t, u);
    forall i: nat
      ensures PageBacked(s.used, u, w, i)
    {
      if i < |w.frames| {
        assert SameWalk(t, u, w.first + i);
        PageBackedKept(s.used, t, u, w, i);
      }
    }
    WrittenStays(s.used, t, u, w, start, Strings(argv, |argv|));
    WrittenStays(s.used, t, u, w, at, PointerTable(argv, start));
    WrittenStays(s.used, t, u, w, esp, ToBytes(|argv|, 4));
    forall p: nat | p < PAGES && !OnStack(p)
      ensures SameWalk(s, u, p)
    {
      assert SameWalk(s, t, p) && SameWalk(t, u, p);
    }
  }

  // ----- frames of its own -----

  ghost predicate OwnStackPage(base: set<nat>, t: Sys, page: nat) {
    Shape(t) && (OnStack(page) ==> DataPage(base, t, page, FrameOf(Walk(t, page))))
  }

  ghost predicate StackPagesDiffer(t: Sys, p: nat, q: nat) {
    Shape(t) && (OnStack(p) && OnStack(q) && p != q ==> FrameOf(Walk(t, p)) != FrameOf(Walk(t, q)))
  }

  /** The stack's pages lead to frames in use, none of them in `base`, no two to the same. */
  ghost predicate OwnStack(base: set<nat>, t: Sys) {
    (forall p: nat :: OwnStackPage(base, t, p)) && (forall p: nat, q: nat :: StackPagesDiffer(t, p, q))
  }

  lemma ReadyIsOwn(s: Sys, t: Sys, w: Window, argv: seq<seq<Byte>>, start: nat, at: nat, esp: nat)
    requires StackReady(s, t, w, argv, start, at, esp)
    ensures OwnStack(s.used, t)
  {
    hide ArgsWritten, DataPage;
    forall p: nat
      ensures OwnStackPage(s.used, t, p)
    {
      if OnStack(p) { FrameOfStack(s.used, t, w, p); }
    }
    forall p: nat, q: nat
      ensures StackPagesDiffer(t, p, q)
    {
      if OnStack(p) && OnStack(q) && p != q {
        FrameOfStack(s.used, t, w, p);
        FrameOfStack(s.used, t, w, q);
        assert Differ(w.frames, p - w.first, q - w.first) && Differ(w.frames, q - w.first, p - w.first);
      }
    }
  }

  lemma FrameOfStack(base: set<nat>, t: Sys, w: Window, page: nat)
    requires Backed(base, t, w) && w.first == STACK_FIRST_PAGE && |w.frames| == STACK_PAGES && OnStack(page)
    ensures Shape(t) && DataPage(base, t, page, FrameOf(Walk(t, page)))
    ensures FrameOf(Walk(t, page)) == w.frames[page - w.first]
  {
    assert PageBacked(base, t, w, page - w.first);
  }

  lemma DataStaysData(s: Sys, t: Sys)
    requires Grew(s, t)
    ensures forall f: nat :: f in s.used && f < |s.mem| && NotTable(s, f) ==> NotTable(t, f)
    ensures Shape(s) && Shape(t) && |t.mem| == |s.mem| && s.used <= t.used
  {
    forall f: nat | f in s.used && f < |s.mem| && NotTable(s, f)
      ensures NotTable(t, f)
    {
      assert Kept(s, t, f);
    }
  }

  /** It stays so while translations, page tables and the frames in use do. */
  lemma OwnStackStays(base: set<nat>, s: Sys, t: Sys, smaller: set<nat>)
    requires OwnStack(base, s) && Shape(s) && Shape(t) && smaller <= base && |t.mem| == |s.mem| && s.used <= t.used
    requires forall p: nat :: p < PAGES ==> SameWalk(s, t, p)
    requires forall f: nat :: f in s.used && f < |s.mem| && NotTable(s, f) ==> NotTable(t, f)
    ensures OwnStack(smaller, t)
  {
    forall p: nat
      ensures OwnStackPage(smaller, t, p)
    {
      assert OwnStackPage(base, s, p);
      if OnStack(p) { assert SameWalk(s, t, p); }
    }
    forall p: nat, q: nat
      ensures StackPagesDiffer(t, p, q)
    {
      assert StackPagesDiffer(s, p, q);
      if OnStack(p) && OnStack(q) { assert SameWalk(s, t, p) && SameWalk(s, t, q); }
    }
  }
}
