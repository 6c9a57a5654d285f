/** The kernel over time: interrupts and system calls one after another, in any order. Every run of the
    kernel on the heap is a run of the transition system, and a line typed while other things go on arrives
    in its reader's buffer. */
module Sessions {
  import opened Options
  import opened Words
  import opened Tasks
  import opened Keyboards
  import opened Kernels
  import opened Bytes
  import C = Console
  import E = LineEditor
  import P = Protocol
  import Paging
  import Process
  import R = Runs
  import S = Safety
  import UserMemory
  import Vmm

  /** What can happen next: an interrupt, or a system call of the current task. */
  datatype Happening =
    | Scancode(code: nat)
    | Timer
    | PutCall(c: C.Char)
    | GetsCall(buffer: array?<C.Char>, size: nat)
    | ExecCall(path: Option<string>, argv: Option<seq<seq<Byte>>>, images: Process.Images)
    | ExitCall(status: Word32)
    | UnknownCall

  /** What each takes on trust. */
  ghost predicate Possible(k: Kernel, m: Vmm.Machine, h: Happening) {
    match h
    case Scancode(code) => code < 0x100
    case GetsCall(buffer, size) =>
      buffer != null && size > 0 ==>
        && buffer.Length == size && k.OffMachine(m, buffer)
        && buffer != k.keyboard.buffer && buffer as object != k.keyboard.vga.buffer
    case ExecCall(path, argv, images) => path.Some? ==> Callable(path.value, argv, images)
    case _ => true
  }

  /** A program that lies off the virtual pages from 8 MB to the end of memory. */
  ghost predicate Fits(m: Vmm.Machine, h: Happening) {
    h.ExecCall? && h.path.Some? ==>
      Process.FitsBeside(Process.Program(h.path.value, h.images), m.mem.Length)
  }

  /** The events of the transition system that can stand for it: none for a scancode without a character. */
  predicate StandsFor(h: Happening, events: seq<P.Event>) {
    match h
    case Scancode(code) => events == if Ascii(code) == 0 then [] else [P.Key(Ascii(code))]
    case Timer => events == [P.Tick]
    case PutCall(_) => events == [P.Putc]
    case GetsCall(buffer, size) => events == [P.Gets(buffer != null, size)]
    case ExecCall(path, _, _) => |events| == 1 && events[0].Exec? && events[0].path == path.Some?
    case ExitCall(status) => events == [P.Exit(status)]
    case UnknownCall => events == [P.OtherCall]
  }

  predicate EndsLine(h: Happening) {
    h.Scancode? && Ascii(h.code) == C.NEWLINE
  }

  /** The line of the task that reads. */
  function LineAfter(line: seq<C.Char>, size: nat, h: Happening): seq<C.Char>
    requires size > 0
  {
    if h.Scancode? then E.Edit(line, size, Ascii(h.code)) else line
  }

  /** The screen while a task reads: the echo of its keys, and what other tasks print. */
  function ScreenAfter(s: C.Screen, line: seq<C.Char>, size: nat, h: Happening, color: C.Char): (r: C.Screen)
    requires C.OnScreen(s) && size > 0
    ensures C.OnScreen(r)
  {
    match h
    case Scancode(code) => E.EchoOnScreen(s, line, size, Ascii(code), color)
    case PutCall(c) => C.Print(s, c, color)
    case _ => s
  }

  /** What belongs to the session of the task that reads, and the screen. */
  datatype Session = Session(task: ControlBlock?, target: array?<C.Char>, size: nat, contents: seq<C.Char>,
                             line: seq<C.Char>, screen: C.Screen)

  ghost function SessionOf(k: Kernel): (r: Session)
    reads k.keyboard, k.keyboard.vga, k.keyboard.buffer, k.keyboard.vga.buffer, k.keyboard.userTarget
    requires k.keyboard.Valid()
    ensures C.OnScreen(r.screen) && r.task == k.keyboard.taskWaiting && r.size == k.keyboard.userMaxSize
    ensures r.target == k.keyboard.userTarget && r.line == k.keyboard.Line() && r.screen == k.keyboard.vga.Abs()
    ensures r.contents == if r.target == null then [] else r.target[..]
  {
    var kb := k.keyboard;
    Session(kb.taskWaiting, kb.userTarget, kb.userMaxSize, if kb.userTarget == null then [] else kb.userTarget[..],
            kb.Line(), kb.vga.Abs())
  }

  /** What a happening other than Enter makes of it. */
  ghost function Continued(r: Session, h: Happening, color: C.Char): Session
    requires r.size > 0 && C.OnScreen(r.screen)
  {
    r.(line := LineAfter(r.line, r.size, h), screen := ScreenAfter(r.screen, r.line, r.size, h, color))
  }

  /** How a step that leaves the machine sound ends, from tasks `s` and session `r`. */
  ghost predicate Served(k: Kernel, m: Vmm.Machine, h: Happening, s: P.State, r: Session, events: seq<P.Event>)
    requires s.current < |s.tasks|
    reads k, k.byId, k.keyboard, k.keyboard.vga, k.keyboard.buffer, k.keyboard.vga.buffer, k.keyboard.userTarget
    reads m, m.mem, m.frames, m.frames.memoryMap
  {
    && k.Valid() && k.RunsOn(m)
    && StandsFor(h, events) && R.GoodRun(s, events) && k.Abs() == P.Run(s, events)
    && (r.task != null && r.size > 0 && C.OnScreen(r.screen) && !EndsLine(h) ==>
          SessionOf(k) == Continued(r, h, k.keyboard.color))
  }

  lemma OneEvent(s: P.State, e: P.Event)
    requires s.current < |s.tasks|
    ensures S.GoodEvent(s, e) ==> R.GoodRun(s, [e])
    ensures P.Run(s, [e]) == P.Step(s, e)
  {
    assert [e][..0] == [] && R.GoodRun(s, []) && P.Run(s, []) == s;
  }

  /** A step with one event. */
  lemma ServedByOne(k: Kernel, m: Vmm.Machine, h: Happening, s: P.State, r: Session, e: P.Event)
    requires s.current < |s.tasks| && k.Valid() && k.RunsOn(m) && StandsFor(h, [e])
    requires S.GoodEvent(s, e) && k.Abs() == P.Step(s, e)
    requires r.task != null && !EndsLine(h) ==>
               r.size > 0 && C.OnScreen(r.screen) && SessionOf(k) == Continued(r, h, k.keyboard.color)
    ensures Served(k, m, h, s, r, [e])
  {
    hide P.Step, P.Run, R.GoodRun, Kernel.RunsOn, Kernel.Abs, SessionOf, Continued;
    OneEvent(s, e);
  }

  /** The same for what neither is a key nor prints. */
  lemma ServedQuietly(k: Kernel, m: Vmm.Machine, h: Happening, s: P.State, r: Session, e: P.Event)
    requires s.current < |s.tasks| && k.Valid() && k.RunsOn(m) && k.Abs() == P.Step(s, e)
    requires match h
             case Timer => e == P.Tick
             case ExitCall(status) => e == P.Exit(status)
             case UnknownCall => e == P.OtherCall
             case _ => false
    requires k.keyboard.Valid() && SessionOf(k) == r
    ensures Served(k, m, h, s, r, [e])
  {
    hide P.Step, P.Run, R.GoodRun, Kernel.RunsOn, Kernel.Abs, Kernel.Linked, S.Safe, SessionOf;
    ServedByOne(k, m, h, s, r, e);
  }

  /** What is plain between any two calls. */
  /** Tasks are only ever added. */
  lemma Longer<T>(a: seq<T>, b: seq<T>, c: seq<T>)
    requires a <= b <= c
    ensures a <= c && c[|a|..] == b[|a|..] + c[|b|..] && b == a + b[|a|..]
  {
  }

  lemma Facts(k: Kernel)
    requires k.Valid()
    ensures k.Linked() && k.DriverOk() && k.Abs().current < |k.Abs().tasks| && k.Abs().halted == k.halted
    ensures k.currentTask != null && k.currentTask in k.byId && k.keyboard.Valid()
    ensures k.keyboard.taskWaiting != null ==> k.keyboard.taskWaiting in k.byId && k.keyboard.userMaxSize > 0
  {
  }

  lemma Sound(k: Kernel, m: Vmm.Machine)
    requires k.RunsOn(m)
    ensures m.Sound() && m.intact
  {
    Usable(m);
  }

  /** The driver's arrays are no part of the machine. */
  lemma Separate(k: Kernel, m: Vmm.Machine)
    requires k.RunsOn(m)
    ensures m.Sound() && m.intact && m.Valid() && m.frames.Used() == k.used && m.mem.Length == k.total
    ensures m.mem as object != k.keyboard.buffer && m.frames.memoryMap as object != k.keyboard.buffer
    ensures m.mem as object != k.keyboard.vga.buffer && m.frames.memoryMap as object != k.keyboard.vga.buffer
    ensures m.mem as object? != k.keyboard.userTarget && m.frames.memoryMap as object? != k.keyboard.userTarget
  {
    Usable(m);
  }

  lemma StillRunsOn(k: Kernel, m: Vmm.Machine)
    requires m.Sound() && m.Valid() && m.frames.Used() == k.used && m.mem.Length == k.total
    requires m.mem as object != k.keyboard.buffer && m.frames.memoryMap as object != k.keyboard.buffer
    requires m.mem as object != k.keyboard.vga.buffer && m.frames.memoryMap as object != k.keyboard.vga.buffer
    requires m.mem as object? != k.keyboard.userTarget && m.frames.memoryMap as object? != k.keyboard.userTarget
    ensures k.RunsOn(m)
  {
  }

  method ServeTimer(k: Kernel, m: Vmm.Machine)
    requires k.Valid() && k.RunsOn(m) && !k.halted
    modifies k`currentTask, k`halted, k`execs, k`lines, k.byId
    ensures m.Sound() && m.intact && m.Abs() == old(m.Abs()) && k.byId == old(k.byId)
    ensures Served(k, m, Timer, old(k.Abs()), old(SessionOf(k)), [P.Tick])
  {
    hide *;
    Sound(k, m);
    Facts(k);
    ghost var s, r := k.Abs(), SessionOf(k);
    k.Tick();
    Facts(k);
    ServedQuietly(k, m, Timer, s, r, P.Tick);
  }

  method ServeExit(k: Kernel, m: Vmm.Machine, status: Word32)
    requires k.Valid() && k.RunsOn(m) && !k.halted
    modifies k`currentTask, k`halted, k`exits, k`execs, k`lines, k.byId
    ensures m.Sound() && m.intact && m.Abs() == old(m.Abs()) && k.byId == old(k.byId)
    ensures Served(k, m, ExitCall(status), old(k.Abs()), old(SessionOf(k)), [P.Exit(status)])
  {
    hide *;
    Sound(k, m);
    Facts(k);
    ghost var s, r := k.Abs(), SessionOf(k);
    k.SysExit(status);
    Facts(k);
    ServedQuietly(k, m, ExitCall(status), s, r, P.Exit(status));
  }

  method ServeUnknown(k: Kernel, m: Vmm.Machine)
    requires k.Valid() && k.RunsOn(m) && !k.halted
    modifies k.byId
    ensures m.Sound() && m.intact && m.Abs() == old(m.Abs()) && k.byId == old(k.byId)
    ensures Served(k, m, UnknownCall, old(k.Abs()), old(SessionOf(k)), [P.OtherCall])
  {
    hide *;
    Sound(k, m);
    Facts(k);
    ghost var s, r := k.Abs(), SessionOf(k);
    k.OtherCall();
    Facts(k);
    ServedQuietly(k, m, UnknownCall, s, r, P.OtherCall);
  }

  method ServePut(k: Kernel, m: Vmm.Machine, c: C.Char)
    requires k.Valid() && k.RunsOn(m) && !k.halted
    modifies k.byId, k.keyboard.vga`x, k.keyboard.vga`y, k.keyboard.vga.buffer
    ensures m.Sound() && m.intact && m.Abs() == old(m.Abs()) && k.byId == old(k.byId)
    ensures Served(k, m, PutCall(c), old(k.Abs()), old(SessionOf(k)), [P.Putc])
  {
    hide P.Step, Served, S.Safe, Kernel.Linked, Kernel.DriverOk, Kernel.Abs, Vmm.Machine.Valid, C.Print;
    Usable(m);
    Facts(k);
    ghost var s, r := k.Abs(), SessionOf(k);
    k.SysPutc(c);
    ServedByOne(k, m, PutCall(c), s, r, P.Putc);
  }

  lemma PossibleGets(k: Kernel, m: Vmm.Machine, buffer: array?<C.Char>, size: nat)
    requires Possible(k, m, GetsCall(buffer, size))
    ensures buffer != null && size > 0 ==>
              && buffer.Length == size && m.mem as object != buffer && m.frames.memoryMap as object != buffer
              && buffer != k.keyboard.buffer && buffer as object != k.keyboard.vga.buffer
  {
  }

  lemma ServedGets(k: Kernel, m: Vmm.Machine, buffer: array?<C.Char>, size: nat, s: P.State, r: Session, e: P.Event)
    requires s.current < |s.tasks| && k.Valid() && k.RunsOn(m) && e == P.Gets(buffer != null, size)
    requires k.Abs() == P.Step(s, e) && k.keyboard.Valid()
    requires r.task != null ==> SessionOf(k) == r && r.size > 0
    ensures Served(k, m, GetsCall(buffer, size), s, r, [e])
  {
    hide P.Step, P.Run, R.GoodRun, Kernel.RunsOn, Kernel.Abs, Kernel.Linked, S.Safe, SessionOf;
    ServedByOne(k, m, GetsCall(buffer, size), s, r, e);
  }

  method ServeGets(k: Kernel, m: Vmm.Machine, buffer: array?<C.Char>, size: nat)
    requires k.Valid() && k.RunsOn(m) && !k.halted && Possible(k, m, GetsCall(buffer, size))
    modifies k`currentTask, k`halted, k`execs, k`lines, k.byId
    modifies k.keyboard`idx, k.keyboard`userTarget, k.keyboard`userMaxSize, k.keyboard`taskWaiting
    modifies k.keyboard`charsRead, k.keyboard.buffer
    ensures m.Sound() && m.intact && m.Abs() == old(m.Abs()) && k.byId == old(k.byId)
    ensures k.keyboard.userTarget == old(k.keyboard.userTarget) || k.keyboard.userTarget == buffer
    ensures Served(k, m, GetsCall(buffer, size), old(k.Abs()), old(SessionOf(k)), [P.Gets(buffer != null, size)])
  {
    hide *;
    Separate(k, m);
    Facts(k);
    PossibleGets(k, m, buffer, size);
    ghost var s, r := k.Abs(), SessionOf(k);
    k.SysGets(buffer, size);
    Facts(k);
    StillRunsOn(k, m);
    ServedGets(k, m, buffer, size, s, r, P.Gets(buffer != null, size));
  }

  method ServeScancode(k: Kernel, m: Vmm.Machine, code: nat)
    requires k.Valid() && k.RunsOn(m) && !k.halted && code < 0x100
    modifies k.byId, k.keyboard`idx, k.keyboard`userTarget, k.keyboard`taskWaiting, k.keyboard`charsRead
    modifies k.keyboard.buffer, k.keyboard.vga`x, k.keyboard.vga`y, k.keyboard.vga.buffer, k.keyboard.userTarget
    ensures m.Sound() && m.intact && m.Abs() == old(m.Abs()) && k.byId == old(k.byId)
    ensures k.keyboard.userTarget == null || k.keyboard.userTarget == old(k.keyboard.userTarget)
    ensures Served(k, m, Scancode(code), old(k.Abs()), old(SessionOf(k)),
                   if Ascii(code) == 0 then [] else [P.Key(Ascii(code))])
  {
    hide P.Step, S.Safe, Kernel.Linked, Kernel.Abs, Vmm.Machine.Valid, C.Print, E.Edit, E.EchoOnScreen, Ascii;
    Usable(m);
    Facts(k);
    OneEvent(k.Abs(), P.Key(Ascii(code)));
    if k.keyboard.taskWaiting != null {
      E.NoCharacter(k.keyboard.vga.Abs(), k.keyboard.Line(), k.keyboard.userMaxSize, k.keyboard.color);
    }
    k.KeyboardInterrupt(code);
  }

  lemma ServedExec(k: Kernel, m: Vmm.Machine, h: Happening, s: P.State, r: Session, made: P.Creation)
    requires h.ExecCall? && s.current < |s.tasks| && k.Valid() && k.RunsOn(m) && S.GoodCreation(s, made)
    requires k.Abs() == P.Step(s, P.Exec(h.path.Some?, made)) && k.keyboard.Valid() && SessionOf(k) == r
    requires r.task != null ==> r.size > 0
    ensures Served(k, m, h, s, r, [P.Exec(h.path.Some?, made)])
  {
    hide P.Step, P.Run, R.GoodRun, Kernel.RunsOn, Kernel.Abs, Kernel.Linked, S.Safe, S.GoodCreation, SessionOf;
    ServedByOne(k, m, h, s, r, P.Exec(h.path.Some?, made));
  }

  method ServeExec(k: Kernel, m: Vmm.Machine, path: Option<string>, argv: Option<seq<seq<Byte>>>,
                   images: Process.Images)
    returns (stopped: bool, ghost made: P.Creation)
    requires k.Valid() && k.RunsOn(m) && !k.halted && Possible(k, m, ExecCall(path, argv, images))
    modifies k`currentTask, k`halted, k`execs, k`lines, k`byId, k`nextTaskId, k`used, k.byId
    modifies m`intact, m.mem, m.frames`usedPages, m.frames.memoryMap
    ensures m.Sound() && old(k.byId) <= k.byId && fresh(k.byId[|old(k.byId)|..])
    ensures UserMemory.Quiet(old(m.Abs())) && Fits(m, ExecCall(path, argv, images)) && !stopped ==>
              m.intact && UserMemory.Quiet(m.Abs())
    ensures !stopped && m.intact ==>
              Served(k, m, ExecCall(path, argv, images), old(k.Abs()), old(SessionOf(k)), [P.Exec(path.Some?, made)])
  {
    hide Kernel.Linked, Kernel.DriverOk, Kernel.Abs, Kernel.RunsOn, Kernel.Beside, Keyboard.Valid, S.Safe,
         UserMemory.Quiet, Vmm.Machine.Valid, P.Step, Served, SessionOf, Outcome, Callable, S.GoodCreation,
         Process.FitsBeside, Process.Program, Paging.Sane;
    Separate(k, m);
    Facts(k);
    ghost var s, r := k.Abs(), SessionOf(k);
    ghost var built;
    stopped, made, built := k.SysExec(m, path, argv, images);
    if path.Some? {
      QuietOutcome(old(m.Abs()), m.Abs(), Process.Program(path.value, images), argv.UnwrapOr([]), built, m.intact);
    }
    if !stopped && m.intact {
      Facts(k);
      ServedExec(k, m, ExecCall(path, argv, images), s, r, made);
    }
  }

  /** One step. */
  method Serve(k: Kernel, m: Vmm.Machine, h: Happening) returns (stopped: bool, ghost events: seq<P.Event>)
    requires k.Valid() && k.RunsOn(m) && !k.halted && Possible(k, m, h)
    modifies k, k.byId, k.keyboard`idx, k.keyboard`userTarget, k.keyboard`userMaxSize, k.keyboard`taskWaiting
    modifies k.keyboard`charsRead, k.keyboard.buffer, k.keyboard.vga`x, k.keyboard.vga`y, k.keyboard.vga.buffer
    modifies k.keyboard.userTarget, m`intact, m.mem, m.frames`usedPages, m.frames.memoryMap
    ensures m.Sound() && old(k.byId) <= k.byId && fresh(k.byId[|old(k.byId)|..])
    ensures var target := k.keyboard.userTarget;
            target == null || target == old(k.keyboard.userTarget) || (h.GetsCall? && target == h.buffer)
    ensures UserMemory.Quiet(old(m.Abs())) && Fits(m, h) && !stopped ==> m.intact && UserMemory.Quiet(m.Abs())
    ensures !stopped && m.intact ==> Served(k, m, h, old(k.Abs()), old(SessionOf(k)), events)
  {
    hide Kernel.Linked, Kernel.DriverOk, Kernel.Abs, Kernel.RunsOn, Keyboard.Valid, S.Safe, UserMemory.Quiet,
         Vmm.Machine.Valid, Served, SessionOf, Callable, Fits;
    Facts(k);
    stopped, events := false, [];
    match h {
      case Scancode(code) =>
        ServeScancode(k, m, code);
        events := if Ascii(code) == 0 then [] else [P.Key(Ascii(code))];
      case Timer =>
        ServeTimer(k, m);
        events := [P.Tick];
      case PutCall(c) =>
        ServePut(k, m, c);
        events := [P.Putc];
      case GetsCall(buffer, size) =>
        ServeGets(k, m, buffer, size);
        events := [P.Gets(buffer != null, size)];
      case ExecCall(path, argv, images) =>
        ghost var made;
        stopped, made := ServeExec(k, m, path, argv, images);
        events := [P.Exec(path.Some?, made)];
      case ExitCall(status) =>
        ServeExit(k, m, status);
        events := [P.Exit(status)];
      case UnknownCall =>
        ServeUnknown(k, m);
        events := [P.OtherCall];
    }
  }

  // ----- many steps -----

  predicate AllStandFor(hs: seq<Happening>, events: seq<P.Event>) {
    if hs == [] then events == []
    else
      var before, h := hs[..|hs| - 1], hs[|hs| - 1];
      if h.Scancode? && Ascii(h.code) == 0 then AllStandFor(before, events)
      else events != [] && StandsFor(h, events[|events| - 1..]) && AllStandFor(before, events[..|events| - 1])
  }

  lemma NothingYet(s: P.State, hs: seq<Happening>)
    requires s.current < |s.tasks|
    ensures AllStandFor(hs[..0], []) && R.GoodRun(s, []) && P.Run(s, []) == s
  {
  }

  lemma OneMore(hs: seq<Happening>, i: nat, events: seq<P.Event>, more: seq<P.Event>)
    requires i < |hs| && AllStandFor(hs[..i], events) && StandsFor(hs[i], more)
    ensures AllStandFor(hs[..i + 1], events + more) && |more| <= 1
  {
    assert hs[..i + 1][..i] == hs[..i];
    if |more| == 1 {
      assert (events + more)[|events|..] == more && (events + more)[..|events|] == events;
    } else {
      assert events + more == events;
    }
  }

  lemma RunGoesOn(s: P.State, events: seq<P.Event>, more: seq<P.Event>)
    requires s.current < |s.tasks| && R.GoodRun(s, events) && R.GoodRun(P.Run(s, events), more) && |more| <= 1
    ensures R.GoodRun(s, events + more) && P.Run(s, events + more) == P.Run(P.Run(s, events), more)
  {
    hide P.Step;
    if more == [] {
      assert events + more == events;
    } else {
      assert (events + more)[..|events|] == events && more[..0] == [];
    }
  }

  /** The buffers that may be read into. */
  ghost function Buffers(hs: seq<Happening>): set<array<C.Char>> {
    set h | h in hs && h.GetsCall? && h.buffer != null :: h.buffer
  }

  ghost predicate AllPossible(k: Kernel, m: Vmm.Machine, hs: seq<Happening>) {
    forall i: nat :: i < |hs| ==> Possible(k, m, hs[i]) && Fits(m, hs[i])
  }

  lemma OnePossible(k: Kernel, m: Vmm.Machine, hs: seq<Happening>, i: nat)
    requires AllPossible(k, m, hs) && i < |hs|
    ensures Possible(k, m, hs[i]) && Fits(m, hs[i])
    ensures hs[i].GetsCall? && hs[i].buffer != null ==> hs[i].buffer in Buffers(hs)
  {
  }

  /** On a quiet machine, whatever happens to the kernel is a run of the transition system, until the
      processor halts or faults. */
  method ServeAll(k: Kernel, m: Vmm.Machine, hs: seq<Happening>)
    returns (served: nat, stopped: bool, ghost events: seq<P.Event>)
    requires k.Valid() && k.RunsOn(m) && UserMemory.Quiet(m.Abs()) && AllPossible(k, m, hs)
    modifies k, k.byId, k.keyboard`idx, k.keyboard`userTarget, k.keyboard`userMaxSize, k.keyboard`taskWaiting
    modifies k.keyboard`charsRead, k.keyboard.buffer, k.keyboard.vga`x, k.keyboard.vga`y, k.keyboard.vga.buffer
    modifies k.keyboard.userTarget, Buffers(hs), m`intact, m.mem, m.frames`usedPages, m.frames.memoryMap
    ensures m.Sound() && served <= |hs| && (served < |hs| ==> stopped || k.halted)
    ensures !stopped ==>
              && k.Valid() && k.RunsOn(m) && UserMemory.Quiet(m.Abs()) && AllStandFor(hs[..served], events)
              && R.GoodRun(old(k.Abs()), events) && k.Abs() == P.Run(old(k.Abs()), events)
  {
    hide Kernel.Linked, Kernel.DriverOk, Kernel.Abs, Kernel.RunsOn, Keyboard.Valid, S.Safe, UserMemory.Quiet,
         Vmm.Machine.Valid, Vmm.Machine.Abs, P.Run, R.GoodRun, AllStandFor, StandsFor, SessionOf, AllPossible,
         Possible, Fits, Kernel.Beside, Kernel.ReaderOf, Kernel.Core, Keyboard.Line, C.Vga.Abs, C.Vga.Valid;
    served, stopped, events := 0, false, [];
    ghost var s := k.Abs();
    Facts(k);
    Sound(k, m);
    NothingYet(s, hs);
    while served < |hs| && !k.halted
      invariant served <= |hs| && k.Valid() && k.RunsOn(m) && AllStandFor(hs[..served], events)
      invariant R.GoodRun(s, events) && k.Abs() == P.Run(s, events)
      invariant m.Sound() && UserMemory.Quiet(m.Abs())
      invariant old(k.byId) <= k.byId && fresh(k.byId[|old(k.byId)|..])
      invariant var target := k.keyboard.userTarget;
                target == null || target == old(k.keyboard.userTarget) || target in Buffers(hs)
      decreases |hs| - served
    {
      Longer(old(k.byId), k.byId, k.byId);
      ghost var before, more := k.byId, [];
      Facts(k);
      OnePossible(k, m, hs, served);
      stopped, more := Serve(k, m, hs[served]);
      Longer(old(k.byId), before, k.byId);
      if stopped { return; }
      OneMore(hs, served, events, more);
      RunGoesOn(s, events, more);
      events := events + more;
      served := served + 1;
    }
  }

  // ----- a line -----

  /** The keys among what happens. */
  function KeysOf(hs: seq<Happening>): seq<C.Char> {
    if hs == [] then []
    else
      var h := hs[|hs| - 1];
      KeysOf(hs[..|hs| - 1]) + if h.Scancode? then [Ascii(h.code)] else []
  }

  /** A session after many happenings. */
  ghost function SessionAfter(r: Session, hs: seq<Happening>, color: C.Char): (t: Session)
    requires r.size > 0 && C.OnScreen(r.screen)
    ensures t == r.(line := t.line, screen := t.screen) && C.OnScreen(t.screen)
  {
    if hs == [] then r else Continued(SessionAfter(r, hs[..|hs| - 1], color), hs[|hs| - 1], color)
  }

  /** Whatever else happens, the line is what the line editor makes of the keys. */
  lemma {:induction false} LineIsOfKeys(r: Session, hs: seq<Happening>, color: C.Char)
    requires r.size > 0 && C.OnScreen(r.screen) && r.line == []
    ensures SessionAfter(r, hs, color).line == E.EditAll(KeysOf(hs), r.size)
  {
    if hs != [] {
      var before, h, keys := hs[..|hs| - 1], hs[|hs| - 1], KeysOf(hs[..|hs| - 1]);
      LineIsOfKeys(r, before, color);
      if h.Scancode? {
        assert (keys + [Ascii(h.code)])[..|keys|] == keys;
      } else {
        assert KeysOf(hs) == keys;
      }
    }
  }

  /** When no task prints, the screen shows the echo of the keys. */
  lemma {:induction false} ScreenIsEcho(r: Session, hs: seq<Happening>, color: C.Char)
    requires r.size > 0 && C.OnScreen(r.screen) && r.line == []
    requires forall h :: h in hs ==> !h.PutCall?
    ensures SessionAfter(r, hs, color).screen == E.EchoAllOnScreen(r.screen, KeysOf(hs), r.size, color)
  {
    hide C.Print, E.Edit, E.EchoOnScreen;
    if hs != [] {
      var before, h, keys := hs[..|hs| - 1], hs[|hs| - 1], KeysOf(hs[..|hs| - 1]);
      assert h in hs && forall g :: g in before ==> g in hs;
      ScreenIsEcho(r, before, color);
      LineIsOfKeys(r, before, color);
      if h.Scancode? {
        assert (keys + [Ascii(h.code)])[..|keys|] == keys;
      } else {
        assert KeysOf(hs) == keys;
      }
    }
  }

  lemma NothingHappened(r: Session, color: C.Char)
    requires r.size > 0 && C.OnScreen(r.screen)
    ensures SessionAfter(r, [], color) == r
  {
  }

  lemma OneMoreInSession(r: Session, hs: seq<Happening>, i: nat, color: C.Char)
    requires r.size > 0 && C.OnScreen(r.screen) && i < |hs|
    ensures var t := SessionAfter(r, hs[..i], color);
            && t.task == r.task && t.size == r.size && C.OnScreen(t.screen)
            && SessionAfter(r, hs[..i + 1], color) == Continued(t, hs[i], color)
  {
    assert hs[..i + 1][..i] == hs[..i];
  }

  lemma ServedMeans(k: Kernel, m: Vmm.Machine, h: Happening, s: P.State, r: Session, events: seq<P.Event>)
    requires s.current < |s.tasks| && Served(k, m, h, s, r, events)
    requires r.task != null && r.size > 0 && C.OnScreen(r.screen) && !EndsLine(h)
    ensures k.Valid() && k.RunsOn(m) && k.keyboard.Valid() && SessionOf(k) == Continued(r, h, k.keyboard.color)
  {
  }

  /** A step leaves the session open. */
  lemma SessionGoesOn(k: Kernel, m: Vmm.Machine, hs: seq<Happening>, i: nat, s: P.State, r: Session,
                      events: seq<P.Event>)
    requires s.current < |s.tasks| && i < |hs| && !EndsLine(hs[i])
    requires r.task != null && r.size > 0 && C.OnScreen(r.screen)
    requires Served(k, m, hs[i], s, SessionAfter(r, hs[..i], k.keyboard.color), events)
    ensures k.Valid() && k.RunsOn(m) && k.keyboard.Valid()
    ensures SessionOf(k) == SessionAfter(r, hs[..i + 1], k.keyboard.color)
  {
    hide *;
    OneMoreInSession(r, hs, i, k.keyboard.color);
    ServedMeans(k, m, hs[i], s, SessionAfter(r, hs[..i], k.keyboard.color), events);
  }

  /** What happens before Enter. */
  method TypeKeys(k: Kernel, m: Vmm.Machine, hs: seq<Happening>) returns (typed: bool, stopped: bool)
    requires k.Valid() && k.RunsOn(m) && UserMemory.Quiet(m.Abs()) && AllPossible(k, m, hs)
    requires !k.halted && k.keyboard.taskWaiting != null
    requires forall i: nat :: i < |hs| ==> !EndsLine(hs[i])
    modifies k, k.byId, k.keyboard`idx, k.keyboard`userTarget, k.keyboard`userMaxSize, k.keyboard`taskWaiting
    modifies k.keyboard`charsRead, k.keyboard.buffer, k.keyboard.vga`x, k.keyboard.vga`y, k.keyboard.vga.buffer
    modifies k.keyboard.userTarget, m`intact, m.mem, m.frames`usedPages, m.frames.memoryMap
    ensures old(k.byId) <= k.byId && fresh(k.byId[|old(k.byId)|..])
    ensures if typed then !stopped && !k.halted else stopped || k.halted
    ensures typed ==> k.Valid() && k.RunsOn(m)
    ensures typed ==> SessionOf(k) == SessionAfter(old(SessionOf(k)), hs, k.keyboard.color)
  {
    hide Kernel.Linked, Kernel.DriverOk, Kernel.Abs, Kernel.RunsOn, Keyboard.Valid, S.Safe, UserMemory.Quiet,
         Vmm.Machine.Valid, Vmm.Machine.Abs, Served, Continued, SessionAfter, SessionOf, AllPossible, Possible, Fits,
         EndsLine, Kernel.Valid, Kernel.Beside, Kernel.ReaderOf, Kernel.Core, Keyboard.Line, C.Vga.Abs, C.Vga.Valid;
    typed, stopped := false, false;
    Facts(k);
    ghost var r, color := SessionOf(k), k.keyboard.color;
    Sound(k, m);
    NothingHappened(r, color);
    var i := 0;
    while i < |hs| && !k.halted
      invariant i <= |hs| && k.Valid() && k.keyboard.Valid() && k.RunsOn(m) && m.Sound() && UserMemory.Quiet(m.Abs())
      invariant SessionOf(k) == SessionAfter(r, hs[..i], color)
      invariant old(k.byId) <= k.byId && fresh(k.byId[|old(k.byId)|..])
      decreases |hs| - i
    {
      Longer(old(k.byId), k.byId, k.byId);
      Facts(k);
      ghost var before, s, events := k.byId, k.Abs(), [];
      OnePossible(k, m, hs, i);
      stopped, events := Serve(k, m, hs[i]);
      Longer(old(k.byId), before, k.byId);
      if stopped { return; }
      SessionGoesOn(k, m, hs, i, s, r, events);
      i := i + 1;
    }
    assert hs[..|hs|] == hs;
    typed := !k.halted;
  }

  /** The Enter that ends a session. */
  method PressEnter(k: Kernel)
    requires k.Valid() && !k.halted && k.keyboard.taskWaiting != null
    modifies k.keyboard`idx, k.keyboard`userTarget, k.keyboard`taskWaiting, k.keyboard`charsRead, k.keyboard.buffer
    modifies k.keyboard.vga`x, k.keyboard.vga`y, k.keyboard.vga.buffer, k.keyboard.userTarget, k.keyboard.taskWaiting
    ensures k.Valid() && k.keyboard.taskWaiting == null
    ensures Delivered(k, old(SessionOf(k)), k.keyboard.color)
  {
    hide Kernel.Linked, Kernel.Abs, S.Safe, C.Print, C.OnScreen;
    Facts(k);
    EnterIsNewline();
    k.KeyboardInterrupt(ENTER);
  }

  /** The line of the session has arrived in its buffer, with a NUL behind it and the rest untouched; its task is
      ready to return the length. */
  ghost predicate Delivered(k: Kernel, r: Session, color: C.Char)
    reads k.keyboard.vga, k.keyboard.vga.buffer, r.task, r.target
  {
    && r.target != null && |r.line| < |r.contents| && r.target[..] == r.line + [0] + r.contents[|r.line| + 1..]
    && k.WokenWith(r.task, |r.line|)
    && k.keyboard.vga.Valid() && C.OnScreen(r.screen) && k.keyboard.vga.Abs() == C.Print(r.screen, C.NEWLINE, color)
  }

  /** On a quiet machine: while a task reads a line, other things may happen between its keys. When Enter
      comes, the reader's own buffer holds the edited line and a NUL, what it held behind that is untouched,
      and the screen shows the echo with what else was printed. */
  method TypeLine(k: Kernel, m: Vmm.Machine, hs: seq<Happening>) returns (typed: bool, stopped: bool)
    requires k.Valid() && k.RunsOn(m) && UserMemory.Quiet(m.Abs()) && AllPossible(k, m, hs)
    requires !k.halted && k.keyboard.taskWaiting != null && k.keyboard.Line() == []
    requires forall i: nat :: i < |hs| ==> !EndsLine(hs[i])
    modifies k, k.byId, k.keyboard`idx, k.keyboard`userTarget, k.keyboard`userMaxSize, k.keyboard`taskWaiting
    modifies k.keyboard`charsRead, k.keyboard.buffer, k.keyboard.vga`x, k.keyboard.vga`y, k.keyboard.vga.buffer
    modifies k.keyboard.userTarget, m`intact, m.mem, m.frames`usedPages, m.frames.memoryMap
    ensures !typed ==> stopped || k.halted
    ensures typed ==> k.Valid() && k.keyboard.taskWaiting == null
    ensures typed ==>
              && SessionAfter(old(SessionOf(k)), hs, k.keyboard.color).line ==
                 E.EditAll(KeysOf(hs), old(k.keyboard.userMaxSize))
              && Delivered(k, SessionAfter(old(SessionOf(k)), hs, k.keyboard.color), k.keyboard.color)
  {
    hide Kernel.Linked, Kernel.DriverOk, Kernel.Abs, Kernel.RunsOn, Keyboard.Valid, S.Safe, UserMemory.Quiet,
         Vmm.Machine.Valid, C.Print, SessionOf, SessionAfter, Possible, Fits, EndsLine, Keyboard.Line, C.Vga.Abs,
         Delivered;
    Facts(k);
    ghost var r, color := SessionOf(k), k.keyboard.color;
    typed, stopped := TypeKeys(k, m, hs);
    if !typed { return; }
    Facts(k);
    Longer(old(k.byId), k.byId, k.byId);
    LineIsOfKeys(r, hs, color);
    PressEnter(k);
  }
}
