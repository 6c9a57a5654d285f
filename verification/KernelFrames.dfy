/** Frames the kernel takes for itself, control blocks and kernel stacks, and writes through their
    physical addresses: below 8 MB through the identity map, above it to wherever the address leads. */
module KernelFrames {
  import opened Words
  import opened Paging
  import opened UserMemory
  import opened Vmm

  const BLOCK_WORDS: nat := 19           // the words of a task control block

  // ----- the kernel stack -----

  /** What is pushed on a new process's kernel stack, in order: the `iret` frame to user mode, the
      flags for `popfd`, eight zero registers for `popad`. */
  function UserFrame(entry: Word32, esp: Word32): seq<Word32> {
    [0x23, esp, 0x202, 0x1B, entry, 0x202, 0, 0, 0, 0, 0, 0, 0, 0]
  }

  /** What is pushed on a new kernel task's stack, in order: the `iret` frame within the kernel, the
      flags for `popfd`, eight zero registers for `popad`. */
  function KernelFrame(entry: Word32): seq<Word32> {
    [0x202, 0x08, entry, 0x202, 0, 0, 0, 0, 0, 0, 0, 0]
  }

  ghost predicate PushedAt(f: Frame, words: seq<Word32>, k: nat)
    requires |words| <= 1024
  {
    k < |words| ==> f[1023 - k] == words[k]
  }

  /** `words` stand at the top of the frame, the first one highest. */
  ghost predicate Pushed(f: Frame, words: seq<Word32>) {
    |words| <= 1024 && forall k: nat :: PushedAt(f, words, k)
  }

  // ----- stores of the kernel to a frame it has taken -----

  /** Words the kernel pushes downward from the top of a frame, through the frame's physical address;
      false for a page fault. They land in the frame that address leads to. */
  method PushWords(m: Machine, frame: nat, words: seq<Word32>) returns (ok: bool, sp: nat)
    requires m.Sound() && frame < PAGES && 0 < |words| <= 1024
    modifies m.mem
    ensures m.Sound() && m.frames.Used() == old(m.frames.Used())
    ensures ok ==> sp == 4096 * frame + 4096 - 4 * |words|
    ensures Steady(old(m.Abs()), frame) ==>
              var s, g := old(m.Abs()), FrameOf(Walk(old(m.Abs()), frame));
              if Walk(s, frame) == 0 then !ok
              else ok && WrittenOnly(s.mem, m.mem[..], g) && Pushed(m.mem[g], words) &&
                   SameWords(s.mem[g], m.mem[g], 0, 1024 - |words|)
  {
    ghost var s := m.Abs();
    ghost var g := FrameOf(Walk(s, frame));
    ghost var steady := Steady(s, frame);
    ghost var lands := steady && Walk(s, frame) != 0;
    var index := 1024;
    var i := 0;
    sp := 0;
    while i < |words|
      invariant 0 <= i <= |words| && index == 1024 - i
      invariant m.Sound() && m.frames.Used() == s.used
      invariant steady && !lands ==> i == 0 && m.mem[..] == s.mem
      invariant lands ==> WrittenOnly(s.mem, m.mem[..], g) && SameWords(s.mem[g], m.mem[g], 0, index)
      invariant lands ==> forall k: nat :: k < i ==> PushedAt(m.mem[g], words, k)
    {
      ghost var before := m.mem[..];
      index := index - 1;
      if steady { LandsAgain(s, before, frame); }
      ok := m.StoreWord(frame, index, words[i]);
      if !ok { return; }
      if lands { PushedOneMore(before[g], m.mem[g], words, i); }
      i := i + 1;
    }
    sp := 4096 * frame + 4 * index;
    ok := true;
  }

  /** Memory that differs in frame `g` at most. */
  ghost predicate WrittenOnly(mem: seq<Frame>, m: seq<Frame>, g: nat) {
    g < |mem| == |m| && m == mem[g := m[g]]
  }

  ghost predicate SameWords(f: Frame, g: Frame, from: nat, to: nat) {
    forall k :: from <= k < to <= 1024 ==> g[k] == f[k]
  }

  /** Such stores do not move the address they go through. */
  lemma LandsAgain(s: Sys, m: seq<Frame>, frame: nat)
    requires Steady(s, frame) && (Walk(s, frame) == 0 ==> m == s.mem)
    requires Walk(s, frame) != 0 ==> WrittenOnly(s.mem, m, FrameOf(Walk(s, frame)))
    ensures |m| == |s.mem| && WalkIn(m, s.pd, frame) == Walk(s, frame)
  {
    var g := FrameOf(Walk(s, frame));
    if Walk(s, frame) != 0 {
      TranslationOutside(s, g, m[g], frame);
    }
  }

  lemma PushedOneMore(f: Frame, g: Frame, words: seq<Word32>, i: nat)
    requires i < |words| <= 1024 && g == f[1023 - i := words[i]]
    requires forall k: nat :: k < i ==> PushedAt(f, words, k)
    ensures forall k: nat :: k < i + 1 ==> PushedAt(g, words, k)
  {
    forall k: nat | k < i + 1
      ensures PushedAt(g, words, k)
    {
      assert k < i ==> PushedAt(f, words, k);
    }
  }

  ghost predicate Clear(f: Frame, from: nat, to: nat) {
    forall k :: from <= k < to <= 1024 ==> f[k] == 0
  }

  /** Words `from` to `to` of a frame cleared through the frame's physical address. */
  method ClearWords(m: Machine, frame: nat, from: nat, to: nat) returns (ok: bool)
    requires m.Sound() && frame < PAGES && from < to <= 1024
    modifies m.mem
    ensures m.Sound() && m.frames.Used() == old(m.frames.Used())
    ensures Steady(old(m.Abs()), frame) ==>
              var s, g := old(m.Abs()), FrameOf(Walk(old(m.Abs()), frame));
              if Walk(s, frame) == 0 then !ok
              else ok && WrittenOnly(s.mem, m.mem[..], g) && Clear(m.mem[g], from, to) &&
                   SameWords(s.mem[g], m.mem[g], 0, from) && SameWords(s.mem[g], m.mem[g], to, 1024)
  {
    ghost var s := m.Abs();
    ghost var g := FrameOf(Walk(s, frame));
    ghost var steady := Steady(s, frame);
    ghost var lands := steady && Walk(s, frame) != 0;
    for i := from to to
      invariant m.Sound() && m.frames.Used() == s.used
      invariant steady && !lands ==> i == from && m.mem[..] == s.mem
      invariant lands ==> WrittenOnly(s.mem, m.mem[..], g) && Clear(m.mem[g], from, i)
      invariant lands ==> SameWords(s.mem[g], m.mem[g], 0, from) && SameWords(s.mem[g], m.mem[g], i, 1024)
    {
      if steady { LandsAgain(s, m.mem[..], frame); }
      ok := m.StoreWord(frame, i, 0);
      if !ok { return; }
    }
    ok := true;
  }

  // ----- taking a frame -----

  /** A new frame below 8 MB, reached by its own address and by no page from 8 MB on; every translation
      and every used frame as before. */
  ghost predicate FrameAdded(s: Sys, t: Sys, f: nat) {
    && Extends(s, t) && f !in s.used && f in t.used && f < |t.mem| && f < LOW && NotTable(t, f) && Private(t, f)
    && Tables(t) == Tables(s) && t.used == s.used + {f} && |t.used| == |s.used| + 1
    && forall p: nat :: p < PAGES ==> SameWalk(s, t, p)
  }

  /** Filling a frame taken since harms nothing that was in use before. */
  lemma RefilledExtends(s: Sys, t: Sys, f: nat, content: Frame)
    requires Extends(s, t) && f < |t.mem| && f !in s.used && NotTable(t, f)
    ensures Extends(s, t.(mem := t.mem[f := content]))
  {
    var u := t.(mem := t.mem[f := content]);
    WrittenInv(t, f, content);
    forall i: nat | i < 1024
      ensures StaysPresent(s, u, i)
    {
      assert StaysPresent(s, t, i);
    }
    forall g: nat
      ensures Kept(s, u, g)
    {
      assert Kept(s, t, g);
    }
    forall p: nat | LOW <= p < PAGES
      ensures NewOrSame(s, u, p)
    {
      assert NewOrSame(s, t, p) && SameWalk(t, u, p);
    }
    forall p: nat, q: nat | LOW <= p < PAGES && LOW <= q < PAGES
      ensures NewApart(s, u, p, q)
    {
      assert NewApart(s, t, p, q) && SameWalk(t, u, p) && SameWalk(t, u, q);
    }
    forall g: nat
      ensures NewBelow(s, u, g)
    {
      assert NewBelow(s, t, g);
    }
  }

  lemma RefilledPrivate(t: Sys, f: nat, content: Frame, h: nat)
    requires Inv(t) && f < |t.mem| && NotTable(t, f) && Private(t, h)
    ensures Private(t.(mem := t.mem[f := content]), h)
  {
    var u := t.(mem := t.mem[f := content]);
    forall p: nat | LOW <= p < PAGES
      ensures NotLeading(u, p, h)
    {
      TranslationOutside(t, f, content, p);
      assert NotLeading(t, p, h);
    }
  }

  /** Filling a frame that was just taken. */
  lemma FillTaken(s: Sys, content: Frame, u: Sys)
    requires Sane(s) && LeastFree(s) < |s.mem| && LeastFree(s) < LOW
    requires u == Taken(s).(mem := s.mem[LeastFree(s) := content])
    ensures FrameAdded(s, u, LeastFree(s))
  {
    hide Inv, Tidy, Extends, Private, NotTable, Tables;
    var f, t := LeastFree(s), Taken(s);
    SaneMeans(s);
    TakenKeeps(s);
    TakenSteady(s);
    TakenExtends(s);
    ExtendsMeans(s, t);
    WrittenInv(t, f, content);
    RefilledExtends(s, t, f, content);
    RefilledPrivate(t, f, content, f);
    forall p: nat | p < PAGES
      ensures SameWalk(s, u, p)
    {
      assert SameWalk(t, u, p);
    }
  }

  lemma ExtendsMeans(s: Sys, t: Sys)
    requires Extends(s, t)
    ensures Inv(t) && Shape(s) && Shape(t) && |t.mem| == |s.mem| && s.used <= t.used
  {
  }

  /** After frame `f` was taken, the words meant for it have gone where its address leads. */
  ghost predicate Landed(s: Sys, t: Sys, f: nat) {
    && Shape(s) && f < |s.mem| && t.pd == s.pd && t.used == s.used + {f}
    && WrittenOnly(s.mem, t.mem, FrameOf(Walk(s, f)))
  }

  /** How taking and filling a frame for the kernel ends on a sane machine. `Fresh` exactly when the
      frame's address is mapped; the words are in the frame itself exactly when it lies below 8 MB, and
      are in a frame of data else. */
  ghost predicate TakingEnds(s: Sys, t: Sys, r: NewPage, f: nat, intact: bool)
    requires Shape(s)
  {
    if LeastFree(s) == |s.mem| then r == NoMemory && t == s && intact
    else if Walk(s, LeastFree(s)) == 0 then r == Stop
    else
      && r == Fresh && f == LeastFree(s) && Landed(s, t, f) && (intact <==> f < LOW)
      && (f < LOW ==> FrameAdded(s, t, f) && FrameOf(Walk(s, f)) == f)
      && (f >= LOW ==> DataFrame(s, FrameOf(Walk(s, f))) && t.mem[f] == s.mem[f])
  }

  lemma AddedExtends(s: Sys, t: Sys, f: nat)
    requires FrameAdded(s, t, f)
    ensures Extends(s, t)
  {
  }

  lemma LowTakingIsDone(s: Sys, t: Sys, f: nat)
    requires Sane(s) && f == LeastFree(s) < |s.mem| && f < LOW && Landed(s, t, f) && FrameOf(Walk(s, f)) == f
    ensures FrameAdded(s, t, f) && Sane(t)
  {
    hide Inv, Tidy, LeastFree, Walk, FrameAdded;
    assert t == Taken(s).(mem := s.mem[f := t.mem[f]]);
    FillTaken(s, t.mem[f], t);
    AddedExtends(s, t, f);
    TidyStays(s, t);
  }

  lemma TakingIsDone(s: Sys, t: Sys, f: nat)
    requires Sane(s) && f == LeastFree(s) < |s.mem| && Walk(s, f) != 0 && Landed(s, t, f)
    ensures TakingEnds(s, t, Fresh, f, f < LOW)
    ensures if f < LOW then Sane(t) else Spare(t) == 0
  {
    hide Inv, Tidy, Walk, Private, DataFrame, FrameAdded, Spare;
    SaneMeans(s);
    FreshIsPrivate(s, f);
    ReachedExactlyLow(s, f);
    if f < LOW {
      LowTakingIsDone(s, t, f);
    } else {
      DataBehind(s, f);
      LeastFreeIsLow(s);
      SpareShrinks(s, t);
    }
  }

  lemma DataBehind(s: Sys, f: nat)
    requires Tidy(s) && LOW <= f < PAGES && Shape(s) && Walk(s, f) != 0
    ensures DataFrame(s, FrameOf(Walk(s, f)))
  {
    assert LeadsToData(s, f);
  }

  /** The words are in the frame itself if and only if there was a free one below 8 MB; when no page from
      8 MB to the end of memory is mapped, the taking ends otherwise only by a halt or for want of a frame. */
  lemma TakingMeans(s: Sys, t: Sys, r: NewPage, f: nat, intact: bool)
    requires Sane(s) && TakingEnds(s, t, r, f, intact)
    ensures r == Fresh && intact <==> LeastFree(s) < LowTop(s)
    ensures r == Fresh && intact ==> f == LeastFree(s) && FrameAdded(s, t, f) && FrameOf(Walk(s, f)) == f
    ensures r == Fresh ==> f == LeastFree(s) && (intact <==> f < LOW)
    ensures r == NoMemory ==> t == s && intact
    ensures Quiet(s) && r != Stop ==> intact && Quiet(t)
  {
    if LeastFree(s) < LOW {
      assert IdentityAt(s, LeastFree(s));
    } else if Quiet(s) && LeastFree(s) < |s.mem| {
      assert UnmappedAt(s, LeastFree(s));
    }
    if r == Fresh && intact && Quiet(s) {
      AddedQuiet(s, t, f);
    }
  }

  lemma TakingCases(s: Sys, t: Sys, r: NewPage, f: nat, intact: bool)
    requires Shape(s) && TakingEnds(s, t, r, f, intact)
    ensures if LeastFree(s) == |s.mem| then r == NoMemory && intact
            else if Walk(s, LeastFree(s)) == 0 then r == Stop
            else r == Fresh && f == LeastFree(s) && (intact <==> f < LOW)
  {
  }

  lemma AddedQuiet(s: Sys, t: Sys, f: nat)
    requires FrameAdded(s, t, f) && Quiet(s)
    ensures Quiet(t)
  {
    forall p: nat | LOW <= p < |t.mem|
      ensures UnmappedAt(t, p)
    {
      assert UnmappedAt(s, p) && SameWalk(s, t, p);
    }
  }

  lemma SteadyTaken(s: Sys, f: nat)
    requires Sane(s) && f == LeastFree(s) < |s.mem|
    ensures Steady(Taken(s), f) && Walk(Taken(s), f) == Walk(s, f)
  {
    TakenSteady(s);
  }

  /** A control block and its clearing. */
  method NewControlBlock(m: Machine) returns (r: NewPage, frame: nat)
    requires m.Good()
    modifies m`intact, m.mem, m.frames`usedPages, m.frames.memoryMap
    ensures m.Sound() && old(m.frames.Used()) <= m.frames.Used() && (m.intact ==> old(m.intact))
    ensures r != Stop ==> m.Good()
    ensures r == NoMemory ==> LeastFree(old(m.Abs())) == m.mem.Length && m.Abs() == old(m.Abs())
    ensures r == Fresh ==> 0 < frame < m.mem.Length && frame == LeastFree(old(m.Abs()))
    ensures r == Fresh ==> frame !in old(m.frames.Used()) && m.frames.Used() == old(m.frames.Used()) + {frame}
    ensures old(m.intact) ==> TakingEnds(old(m.Abs()), m.Abs(), r, frame, m.intact)
    ensures old(m.intact) && r == Fresh ==>
              var s, g := old(m.Abs()), FrameOf(Walk(old(m.Abs()), frame));
              Clear(m.Abs().mem[g], 0, BLOCK_WORDS) && SameWords(s.mem[g], m.Abs().mem[g], 19, 1024)
  {
    hide Inv, Tidy, Sane, Spare, Steady, TakingEnds, Walk, FrameOf;
    ghost var s := m.Abs();
    var addr := m.AllocPage();
    if addr == 0 {
      NothingTaken(s);
      return NoMemory, 0;
    }
    frame := addr / 4096;
    ghost var t := m.Abs();
    if m.intact { SteadyTaken(s, frame); }
    var ok := ClearWords(m, frame, 0, BLOCK_WORDS);
    SameSpare(t, m.Abs());
    if !ok {
      NothingReached(s, m.Abs(), frame);
      return Stop, frame;
    }
    if m.intact { TakingIsDone(s, m.Abs(), frame); }
    m.intact := m.intact && frame < LOW;
    r := Fresh;
  }

  lemma NothingTaken(s: Sys)
    requires Shape(s) && LeastFree(s) == |s.mem|
    ensures TakingEnds(s, s, NoMemory, 0, true)
  {
  }

  lemma NothingReached(s: Sys, t: Sys, f: nat)
    requires Shape(s) && f == LeastFree(s) < |s.mem|
    ensures Walk(s, f) == 0 ==> forall intact :: TakingEnds(s, t, Stop, f, intact)
  {
  }

  datatype Field = Field(word: nat, value: Word32)

  predicate InFrame(fields: seq<Field>) {
    forall i :: 0 <= i < |fields| ==> fields[i].word < 1024
  }

  /** The fields `tasking_init` sets in the boot task's control block: id, state, eip, esp, ebp, eflags,
      the link to itself, parent, awaited child. */
  function BootFields(frame: nat): (fields: seq<Field>)
    requires frame < PAGES
    ensures |fields| == 9 && InFrame(fields)
  {
    [Field(0, 1), Field(11, 0), Field(8, 0), Field(9, 0), Field(7, 0), Field(10, 0x202), Field(12, 4096 * frame),
     Field(13, 0), Field(14, 0)]
  }

  /** A frame after the first `n` fields are set. */
  function WithFields(f: Frame, fields: seq<Field>, n: nat): Frame
    requires n <= |fields| && InFrame(fields)
    decreases n
  {
    if n == 0 then f else WithFields(f, fields, n - 1)[fields[n - 1].word := fields[n - 1].value]
  }

  /** Fields set through a frame's physical address; false for a page fault. */
  method StoreFields(m: Machine, frame: nat, fields: seq<Field>) returns (ok: bool)
    requires m.Sound() && frame < PAGES && fields != [] && InFrame(fields)
    modifies m.mem
    ensures m.Sound() && m.frames.Used() == old(m.frames.Used())
    ensures Steady(old(m.Abs()), frame) ==>
              var s, g := old(m.Abs()), FrameOf(Walk(old(m.Abs()), frame));
              if Walk(s, frame) == 0 then !ok
              else ok && WrittenOnly(s.mem, m.mem[..], g) && m.mem[g] == WithFields(s.mem[g], fields, |fields|)
  {
    ghost var s := m.Abs();
    ghost var g := FrameOf(Walk(s, frame));
    ghost var steady := Steady(s, frame);
    ghost var lands := steady && Walk(s, frame) != 0;
    for i := 0 to |fields|
      invariant m.Sound() && m.frames.Used() == s.used
      invariant steady && !lands ==> i == 0 && m.mem[..] == s.mem
      invariant lands ==> WrittenOnly(s.mem, m.mem[..], g) && m.mem[g] == WithFields(s.mem[g], fields, i)
    {
      if steady { LandsAgain(s, m.mem[..], frame); }
      ok := m.StoreWord(frame, fields[i].word, fields[i].value);
      if !ok { return; }
    }
    ok := true;
  }

  /** Once more through the same address. */
  lemma SteadyAgain(s: Sys, t: Sys, frame: nat)
    requires Steady(s, frame) && Walk(s, frame) != 0 && t.pd == s.pd && t.used == s.used
    requires WrittenOnly(s.mem, t.mem, FrameOf(Walk(s, frame)))
    ensures Steady(t, frame) && Walk(t, frame) == Walk(s, frame)
  {
    var g := FrameOf(Walk(s, frame));
    WrittenInv(s, g, t.mem[g]);
    assert t == s.(mem := s.mem[g := t.mem[g]]);
    assert SameWalk(s, t, frame);
  }

  /** The 19 words of a control block before it is linked in: id; eip, esp and eflags among registers of
      zero; state ready; no link; parent; no awaited child and no exit status; argc and argv; no return
      value. */
  ghost predicate BlockHolds(f: Frame, id: nat, parent: nat, argc: nat, argvAt: nat, entry: nat, sp: nat) {
    && f[0] == id && Clear(f, 1, 8) && f[8] == entry && f[9] == sp && f[10] == 0x202
    && f[11] == 1 && f[12] == 0 && f[13] == parent && f[14] == 0 && f[15] == 0
    && f[16] == argc && f[17] == argvAt && f[18] == 0
  }

  /** What has come of setting a cleared block's fields through its address. */
  ghost predicate FieldsSet(s: Sys, t: Sys, frame: nat, id: nat, parent: nat, argc: nat, argvAt: nat, entry: nat,
                            sp: nat)
    requires Shape(s) && frame < PAGES
  {
    var g := FrameOf(Walk(s, frame));
    && Walk(s, frame) != 0 && WrittenOnly(s.mem, t.mem, g) && t.pd == s.pd && t.used == s.used
    && (Clear(s.mem[g], 0, BLOCK_WORDS) ==> BlockHolds(t.mem[g], id, parent, argc, argvAt, entry, sp))
  }

  /** The fields `create_user_process` sets; false for a page fault. */
  method SetProcessFields(m: Machine, frame: nat, id: Word32, parent: Word32, argc: Word32, argvAt: Word32,
                          entry: Word32, sp: Word32)
    returns (ok: bool)
    requires m.Sound() && frame < PAGES
    modifies m.mem
    ensures m.Sound() && m.frames.Used() == old(m.frames.Used())
    ensures Steady(old(m.Abs()), frame) && Walk(old(m.Abs()), frame) != 0 ==>
              ok && FieldsSet(old(m.Abs()), m.Abs(), frame, id, parent, argc, argvAt, entry, sp)
  {
    hide Steady, Walk, FrameOf, WithFields;
    ghost var s := m.Abs();
    ghost var lands := Steady(s, frame) && Walk(s, frame) != 0;
    var first := [Field(17, argvAt), Field(16, argc), Field(0, id), Field(11, 1), Field(13, parent), Field(14, 0)];
    ok := StoreFields(m, frame, first);
    if !ok { return; }
    ghost var t := m.Abs();
    if lands { SteadyAgain(s, t, frame); }
    ok := ClearWords(m, frame, 1, 11);
    if !ok { return; }
    ghost var u := m.Abs();
    if lands { SteadyAgain(t, u, frame); }
    var last := [Field(9, sp), Field(8, entry), Field(10, 0x202)];
    ok := StoreFields(m, frame, last);
    if lands {
      ghost var g := FrameOf(Walk(s, frame));
      ProcessFieldsHold(s.mem[g], t.mem[g], u.mem[g], m.mem[g], first, last, id, parent, argc, argvAt, entry, sp);
    }
  }

  lemma ProcessFieldsHold(f: Frame, g: Frame, h: Frame, r: Frame, first: seq<Field>, last: seq<Field>, id: Word32,
                          parent: Word32, argc: Word32, argvAt: Word32, entry: Word32, sp: Word32)
    requires first == [Field(17, argvAt), Field(16, argc), Field(0, id), Field(11, 1), Field(13, parent), Field(14, 0)]
    requires last == [Field(9, sp), Field(8, entry), Field(10, 0x202)]
    requires g == WithFields(f, first, 6) && r == WithFields(h, last, 3)
    requires Clear(h, 1, 11) && SameWords(g, h, 0, 1) && SameWords(g, h, 11, 1024)
    ensures Clear(f, 0, BLOCK_WORDS) ==> BlockHolds(r, id, parent, argc, argvAt, entry, sp)
  {
    SixFields(f, first, g);
    ThreeFields(h, last, r);
  }

  /** The fields `create_task` sets; false for a page fault. */
  method SetTaskFields(m: Machine, frame: nat, id: Word32, entry: Word32, sp: Word32) returns (ok: bool)
    requires m.Sound() && frame < PAGES
    modifies m.mem
    ensures m.Sound() && m.frames.Used() == old(m.frames.Used())
    ensures Steady(old(m.Abs()), frame) && Walk(old(m.Abs()), frame) != 0 ==>
              ok && FieldsSet(old(m.Abs()), m.Abs(), frame, id, 0, 0, 0, entry, sp)
  {
    hide Steady, Walk, FrameOf, WithFields;
    ghost var s := m.Abs();
    var fields := [Field(0, id), Field(11, 1), Field(13, 0), Field(14, 0), Field(9, sp), Field(8, entry),
                   Field(10, 0x202), Field(7, 0)];
    ok := StoreFields(m, frame, fields);
    if Steady(s, frame) && Walk(s, frame) != 0 {
      ghost var g := FrameOf(Walk(s, frame));
      TaskFieldsHold(s.mem[g], m.mem[g], fields, id, entry, sp);
    }
  }

  lemma TaskFieldsHold(f: Frame, g: Frame, fields: seq<Field>, id: Word32, entry: Word32, sp: Word32)
    requires fields == [Field(0, id), Field(11, 1), Field(13, 0), Field(14, 0), Field(9, sp), Field(8, entry),
                        Field(10, 0x202), Field(7, 0)]
    requires g == WithFields(f, fields, 8)
    ensures Clear(f, 0, BLOCK_WORDS) ==> BlockHolds(g, id, 0, 0, 0, entry, sp)
  {
    SixFields(f, fields[..6], WithFields(f, fields, 6));
    assert g == WithFields(f, fields, 6)[10 := 0x202][7 := 0];
  }

  lemma SixFields(f: Frame, fields: seq<Field>, g: Frame)
    requires |fields| == 6 && InFrame(fields) && g == WithFields(f, fields, 6)
    ensures g == f[fields[0].word := fields[0].value][fields[1].word := fields[1].value]
                  [fields[2].word := fields[2].value][fields[3].word := fields[3].value]
                  [fields[4].word := fields[4].value][fields[5].word := fields[5].value]
  {
    ThreeFields(f, fields[..3], WithFields(f, fields, 3));
    assert WithFields(f, fields, 5) == WithFields(f, fields, 4)[fields[4].word := fields[4].value];
  }

  lemma ThreeFields(f: Frame, fields: seq<Field>, g: Frame)
    requires |fields| == 3 && InFrame(fields) && g == WithFields(f, fields, 3)
    ensures g == f[fields[0].word := fields[0].value][fields[1].word := fields[1].value]
                  [fields[2].word := fields[2].value]
  {
    assert WithFields(f, fields, 2) == WithFields(f, fields, 1)[fields[1].word := fields[1].value];
  }

  /** The boot task's control block in a frame that held `before`: id 1; ebp, eip and esp zero, eflags with interrupts
      on; state running; linked to itself; no parent, no awaited child. Nothing else is set. */
  ghost predicate BootBlockHolds(before: Frame, f: Frame, frame: nat) {
    && f[0] == 1 && f[7] == 0 && f[8] == 0 && f[9] == 0 && f[10] == 0x202
    && f[11] == 0 && f[12] == 4096 * frame && f[13] == 0 && f[14] == 0
    && (forall k :: 1 <= k < 7 || 15 <= k < 1024 ==> f[k] == before[k])
  }

  lemma BootFieldsHold(f: Frame, fields: seq<Field>, g: Frame, frame: nat)
    requires frame < PAGES && fields == BootFields(frame) && g == WithFields(f, fields, 9)
    ensures BootBlockHolds(f, g, frame)
  {
    SixFields(f, fields[..6], WithFields(f, fields, 6));
    assert g == WithFields(f, fields, 6)[12 := 4096 * frame][13 := 0][14 := 0];
  }

  /** The boot task's control block. It is not cleared first. */
  method NewBootBlock(m: Machine) returns (r: NewPage, frame: nat)
    requires m.Good()
    modifies m`intact, m.mem, m.frames`usedPages, m.frames.memoryMap
    ensures m.Sound() && (m.intact ==> old(m.intact))
    ensures r != Stop ==> m.Good()
    ensures r == Fresh ==> 0 < frame < m.mem.Length && frame == LeastFree(old(m.Abs()))
    ensures r == Fresh ==> frame !in old(m.frames.Used()) && m.frames.Used() == old(m.frames.Used()) + {frame}
    ensures old(m.intact) ==> TakingEnds(old(m.Abs()), m.Abs(), r, frame, m.intact)
    ensures old(m.intact) && r == Fresh ==>
              var s, g := old(m.Abs()), FrameOf(Walk(old(m.Abs()), frame));
              BootBlockHolds(s.mem[g], m.Abs().mem[g], frame)
  {
    hide Inv, Tidy, Sane, Spare, Steady, TakingEnds, Walk, FrameOf, WithFields, BootFields, BootBlockHolds;
    ghost var s := m.Abs();
    var addr := m.AllocPage();
    if addr == 0 {
      NothingTaken(s);
      return NoMemory, 0;
    }
    frame := addr / 4096;
    ghost var t := m.Abs();
    if m.intact { SteadyTaken(s, frame); }
    var ok := StoreFields(m, frame, BootFields(frame));
    SameSpare(t, m.Abs());
    if !ok {
      NothingReached(s, m.Abs(), frame);
      return Stop, frame;
    }
    if m.intact {
      TakingIsDone(s, m.Abs(), frame);
      ghost var g := FrameOf(Walk(s, frame));
      BootFieldsHold(s.mem[g], BootFields(frame), m.mem[g], frame);
    }
    m.intact := m.intact && frame < LOW;
    r := Fresh;
  }

  /** The words are on top of the frame that the page leads to when memory is in state `s`. */
  ghost predicate PushedThrough(s: Sys, t: Sys, page: nat, words: seq<Word32>) {
    && Shape(s) && page < PAGES && FrameOf(Walk(s, page)) < |t.mem|
    && Pushed(t.mem[FrameOf(Walk(s, page))], words)
  }

  lemma PushedHere(s: Sys, t: Sys, f: nat, words: seq<Word32>)
    requires PushedThrough(s, t, f, words) && FrameOf(Walk(s, f)) == f
    ensures f < |t.mem| && Pushed(t.mem[f], words)
  {
  }

  /** A new kernel stack with `words` pushed on it. */
  method NewKernelStack(m: Machine, words: seq<Word32>) returns (r: NewPage, frame: nat, sp: nat)
    requires m.Good() && 0 < |words| <= 1024
    modifies m`intact, m.mem, m.frames`usedPages, m.frames.memoryMap
    ensures m.Sound() && old(m.frames.Used()) <= m.frames.Used() && (m.intact ==> old(m.intact))
    ensures r != Stop ==> m.Good()
    ensures r == NoMemory ==> LeastFree(old(m.Abs())) == m.mem.Length && m.Abs() == old(m.Abs())
    ensures r == Fresh ==> 0 < frame < m.mem.Length && frame == LeastFree(old(m.Abs()))
    ensures r == Fresh ==> frame !in old(m.frames.Used()) && m.frames.Used() == old(m.frames.Used()) + {frame}
    ensures r == Fresh ==> sp == 4096 * frame + 4096 - 4 * |words|
    ensures old(m.intact) ==> TakingEnds(old(m.Abs()), m.Abs(), r, frame, m.intact)
    ensures old(m.intact) && r == Fresh ==> PushedThrough(old(m.Abs()), m.Abs(), frame, words)
  {
    hide Inv, Tidy, Sane, Spare, Steady, TakingEnds, Walk, FrameOf;
    ghost var s := m.Abs();
    var addr := m.AllocPage();
    if addr == 0 {
      NothingTaken(s);
      return NoMemory, 0, 0;
    }
    frame := addr / 4096;
    ghost var t := m.Abs();
    if m.intact { SteadyTaken(s, frame); }
    var ok;
    ok, sp := PushWords(m, frame, words);
    SameSpare(t, m.Abs());
    if !ok {
      NothingReached(s, m.Abs(), frame);
      return Stop, frame, sp;
    }
    if m.intact { TakingIsDone(s, m.Abs(), frame); }
    m.intact := m.intact && frame < LOW;
    r := Fresh;
  }

  /** A frame that was added stays, with its content, while memory grows. */
  lemma AddedStays(s: Sys, t: Sys, u: Sys, f: nat)
    requires FrameAdded(s, t, f) && Extends(t, u)
    ensures Extends(s, u) && NewFrame(s, u, f) && u.mem[f] == t.mem[f]
  {
    ExtendsTransitive(s, t, u);
    PrivateStays(t, u, f);
    assert Kept(t, u, f);
  }

  /** A new frame of the kernel: it was not in use before and is now, lies below 8 MB, is no page table,
      and no page from 8 MB on leads to it. */
  ghost predicate NewFrame(s: Sys, t: Sys, f: nat) {
    Shape(t) && f !in s.used && f in t.used && NotTable(t, f) && f < |t.mem| && f < LOW && Private(t, f)
  }
}
