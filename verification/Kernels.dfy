/** The kernel's task structures on the heap: control blocks linked in a ring by `next`, and the
    operations on them. Each is tied to one step of the transition system. */
module Kernels {
  import opened Options
  import opened Words
  import opened Tasks
  import opened Keyboards
  import opened Bytes
  import opened Steps
  import A = Answers
  import Args
  import C = Console
  import E = LineEditor
  import Elf
  import KernelFrames
  import Paging
  import Pmm
  import Process
  import P = Protocol
  import R = Runs
  import S = Safety
  import UserMemory
  import UserStack
  import Vmm

  ghost predicate InRing(ts: seq<ControlBlock>, t: ControlBlock) {
    t.id <= |ts| && ts[t.id - 1] == t
  }

  /** Control block `i` of the ring: its id, its `next`, its parent. */
  ghost predicate LinkOk(ts: seq<ControlBlock>, i: nat)
    reads ts
  {
    i < |ts| ==>
      && ts[i].id == i + 1
      && ts[i].next == ts[P.Next(|ts|, i)]
      && (ts[i].parent != null ==> InRing(ts, ts[i].parent))
      && ts[i].Consistent()
  }

  ghost function TasksOf(ts: seq<ControlBlock>): (tasks: seq<P.Task>)
    reads ts
    ensures |tasks| == |ts|
  {
    seq(|ts|, i requires 0 <= i < |ts| reads ts => ts[i].Abs())
  }

  ghost predicate AllLinked(ts: seq<ControlBlock>)
    reads ts
  {
    forall i: nat :: LinkOk(ts, i)
  }

  lemma Distinct(ts: seq<ControlBlock>)
    requires AllLinked(ts)
    ensures forall i, j :: 0 <= i < j < |ts| ==> ts[i] != ts[j]
  {
    forall i, j | 0 <= i < j < |ts|
      ensures ts[i] != ts[j]
    {
      assert LinkOk(ts, i) && LinkOk(ts, j);
    }
  }

  /** What `create_user_process` takes on trust: C strings that fit on the stack, and a program that is
      well formed. */
  ghost predicate Callable(path: string, argv: Option<seq<seq<Byte>>>, images: Process.Images) {
    && Args.AllStrings(argv.UnwrapOr([])) && UserStack.BlockSize(argv.UnwrapOr([])) <= 4096 * UserStack.STACK_PAGES
    && (Process.Program(path, images) != [] ==> Elf.WellFormed(Process.Program(path, images)))
  }

  /** A process can be made of the file without a stray store. */
  ghost predicate CanBuild(s: Paging.Sys, file: seq<Byte>) {
    && Paging.Shape(s) && file != [] && Elf.WellFormed(file) && !Process.Refused(file)
    && Process.Enough(s, file)
  }

  /** What `create_user_process` has come to in memory. A process is set up as it should be if and only
      if it is returned and no store has gone astray, and that is so exactly when the file is a program
      and frames below 8 MB are enough. If no page from 8 MB to the end of memory is mapped and the program
      will map none, no store goes astray, and that stays so. */
  ghost predicate Outcome(s: Paging.Sys, t: Paging.Sys, file: seq<Byte>, argv: seq<seq<Byte>>, r: Process.NewProcess,
                          intact: bool)
  {
    && (r.Built? ==> (intact <==> Process.ProcessBuilt(s, t, file, argv, r)))
    && (r.Built? && intact <==> CanBuild(s, file))
    && (UserMemory.Quiet(s) && Process.FitsBeside(file, |s.mem|) && !r.NeverBuilt? ==> intact && UserMemory.Quiet(t))
  }

  /** What the making of a process did to tasks and frames. */
  ghost function Creation(r: Process.NewProcess, used: set<nat>): P.Creation {
    if r.Built? then P.Created(r.block, used) else P.NotCreated(used)
  }

  lemma OutcomeOf(s: Paging.Sys, t: Paging.Sys, path: string, images: Process.Images, argv: seq<seq<Byte>>,
                  r: Process.NewProcess, intact: bool)
    requires Paging.Shape(s)
    requires var file := Process.Program(path, images);
             && (file == [] ==> r == Process.Failed)
             && (file != [] ==> Elf.WellFormed(file))
             && (r.Built? ==>
                   file != [] && !Process.Refused(file) && (intact <==> Process.ProcessBuilt(s, t, file, argv, r)))
             && (file != [] && !Process.Refused(file) ==> (r.Built? && intact <==> Process.Enough(s, file)))
             && (UserMemory.Quiet(s) && Process.FitsBeside(file, |s.mem|) && !r.NeverBuilt? ==>
                   intact && UserMemory.Quiet(t))
    ensures Outcome(s, t, Process.Program(path, images), argv, r, intact)
  {
    hide Process.ProcessBuilt, Process.Enough, Process.Refused, Process.FitsBeside, UserMemory.Quiet, Elf.WellFormed;
  }

  /** A new control block is in a frame that was free. */
  lemma BlockIsNew(s: Paging.Sys, t: Paging.Sys, file: seq<Byte>, argv: seq<seq<Byte>>, r: Process.NewProcess)
    requires Process.ProcessBuilt(s, t, file, argv, r)
    ensures r.Built? && r.block !in s.used && r.block in t.used
  {
  }

  /** What the making of a process has taken was free. */
  lemma MadeWell(s: P.State, a: Paging.Sys, b: Paging.Sys, file: seq<Byte>, argv: seq<seq<Byte>>,
                 r: Process.NewProcess)
    requires s.used == a.used && s.total == |a.mem| == |b.mem| && a.used <= b.used && Paging.Sane(b)
    requires r.Built? ==> Process.ProcessBuilt(a, b, file, argv, r)
    ensures S.GoodCreation(s, Creation(r, b.used))
  {
    hide Process.ProcessBuilt;
    Paging.UsedInRange(b);
    if r.Built? { BlockIsNew(a, b, file, argv, r); }
  }

  lemma TaskMadeWell(s: P.State, a: Paging.Sys, b: Paging.Sys, id: nat, entry: Word32, block: nat, stack: nat, sp: nat)
    requires s.used == a.used && s.total == |b.mem| && Paging.Sane(b)
    requires Process.TaskBuilt(a, b, id, entry, block, stack, sp)
    ensures S.GoodCreation(s, P.Created(block, b.used)) && |b.used| == |a.used| + 2
  {
    hide KernelFrames.BlockHolds, KernelFrames.Pushed, Paging.Extends, Paging.Tidy;
    Paging.UsedInRange(b);
    assert |a.used + {block, stack}| == |a.used| + |{block, stack}|;
  }

  lemma QuietOutcome(s: Paging.Sys, t: Paging.Sys, file: seq<Byte>, argv: seq<seq<Byte>>, r: Process.NewProcess,
                     intact: bool)
    requires Outcome(s, t, file, argv, r, intact)
    ensures UserMemory.Quiet(s) && Process.FitsBeside(file, |s.mem|) && !r.NeverBuilt? ==> intact && UserMemory.Quiet(t)
  {
  }

  lemma Usable(m: Vmm.Machine)
    requires m.Valid()
    ensures m.Sound() && m.Good() && m.intact
  {
  }

  lemma BootedSafely(m: Vmm.Machine, block: nat)
    requires m.Sound() && block in m.frames.Used()
    ensures m.Valid() ==> S.Safe(P.Booted(m.frames.Used(), m.mem.Length, block))
  {
    if m.Valid() {
      Paging.UsedInRange(m.Abs());
      R.BootedIsSafe(m.frames.Used(), m.mem.Length, block);
    }
  }

  lemma BootBlockTaken(s: Paging.Sys, t: Paging.Sys, status: Vmm.NewPage, block: nat, intact: bool)
    requires Paging.Sane(s) && KernelFrames.TakingEnds(s, t, status, block, intact)
    ensures status == Vmm.Fresh && intact <==> Paging.Spare(s) > 0
    ensures Paging.LeastFree(s) == |s.mem| ==> status == Vmm.NoMemory && intact
    ensures UserMemory.Quiet(s) && status != Vmm.Stop ==> intact && UserMemory.Quiet(t)
    ensures status == Vmm.Fresh && intact ==>
              block == Paging.LeastFree(s) < Paging.PAGES && Paging.FrameOf(Paging.Walk(s, block)) == block
  {
    KernelFrames.TakingMeans(s, t, status, block, intact);
    KernelFrames.TakingCases(s, t, status, block, intact);
    Paging.LeastFreeIsLow(s);
  }

  class Kernel {
    const keyboard: Keyboard
    var currentTask: ControlBlock?
    var taskQueueHead: ControlBlock?
    var nextTaskId: Pid
    var halted: bool                      // after `cli; hlt`
    /** All tasks, in the order of their creation. */
    ghost var byId: seq<ControlBlock>
    /** The frames in use, out of `total`. */
    ghost var used: set<nat>
    ghost const total: nat
    ghost var exits: map<nat, Word32>
    ghost var execs: seq<P.ExecReturn>
    ghost var lines: seq<P.GetsReturn>

    /** The ring: `next` forms one cycle through all tasks ever created. */
    ghost predicate Linked()
      reads this, byId
    {
      && byId != [] && taskQueueHead == byId[0] && nextTaskId == |byId| + 1
      && currentTask != null && InRing(byId, currentTask)
      && AllLinked(byId)
    }

    /** The driver beside it. */
    ghost predicate DriverOk()
      reads this, keyboard, keyboard.vga
    {
      keyboard.Valid() && (keyboard.taskWaiting != null ==> InRing(byId, keyboard.taskWaiting))
    }

    /** The memory the kernel runs on. */
    ghost predicate RunsOn(m: Vmm.Machine)
      reads `used, keyboard`userTarget, m, m.mem, m.frames, m.frames.memoryMap
    {
      m.Valid() && m.frames.Used() == used && m.mem.Length == total && Beside(m)
    }

    ghost predicate Beside(m: Vmm.Machine)
      reads keyboard`userTarget
    {
      && OffMachine(m, keyboard.buffer) && OffMachine(m, keyboard.vga.buffer)
      && (keyboard.userTarget != null ==> OffMachine(m, keyboard.userTarget))
    }

    /** An object that is no part of the machine's memory. */
    ghost predicate OffMachine(m: Vmm.Machine, o: object) {
      o != m.mem && o != m.frames.memoryMap
    }

    ghost function ReaderOf(): P.Reader
      reads this, keyboard, keyboard.vga, keyboard.buffer
      requires keyboard.Valid()
    {
      if keyboard.taskWaiting == null then P.NoReader
      else P.Reader(keyboard.taskWaiting.id - 1, keyboard.userMaxSize, keyboard.Line())
    }

    /** The tasks and their history alone. */
    ghost function Core(): P.State
      reads this, byId
      requires Linked()
    {
      P.State(TasksOf(byId), currentTask.id - 1, P.NoReader, halted, used, total, exits, execs, lines)
    }

    ghost function Abs(): P.State
      reads this, byId, keyboard, keyboard.vga, keyboard.buffer
      requires Linked() && DriverOk()
    {
      Core().(reader := ReaderOf())
    }

    /** What holds between any two calls. */
    ghost predicate Valid()
      reads this, byId, keyboard, keyboard.vga, keyboard.buffer
    {
      Linked() && DriverOk() && S.Safe(Abs())
    }

    /** The plain fields of the abstract state. */
    lemma AbsIs()
      requires Linked() && DriverOk()
      ensures Abs().current == currentTask.id - 1 && Abs().halted == halted
      ensures Abs().used == used && Abs().total == total && |Abs().tasks| == |byId|
      ensures Abs().execs == execs && Abs().lines == lines
    {
    }

    /** One value more than `before` has been returned by SYS_EXEC, or none; the current task is the one that
        called it, and has the value in EAX. */
    ghost predicate ExecAnswered(before: seq<P.ExecReturn>)
      reads this, currentTask
    {
      execs == before ||
      (|execs| == |before| + 1 && execs[..|before|] == before && currentTask != null &&
       currentTask.id == execs[|before|].parent + 1 && currentTask.eax == execs[|before|].value)
    }

    /** The same for SYS_GETS. */
    ghost predicate GetsAnswered(before: seq<P.GetsReturn>)
      reads this, currentTask
    {
      lines == before ||
      (|lines| == |before| + 1 && lines[..|before|] == before && currentTask != null &&
       currentTask.id == lines[|before|].task + 1 && currentTask.eax == lines[|before|].value)
    }

    lemma Answered(s: P.State, e: P.Event)
      requires Linked() && DriverOk() && s.current < |s.tasks| && Abs() == P.Step(s, e)
      ensures ExecAnswered(s.execs) && GetsAnswered(s.lines)
    {
      hide P.Step, AllLinked;
      A.StepReturns(s, e);
      TaskAt(currentTask);
    }

    /** A call that is answered at once. */
    lemma AnsweredNow(s: P.State, e: P.Event)
      requires Linked() && DriverOk() && s.current < |s.tasks| && !s.halted && Abs() == P.Step(s, e)
      ensures e.OtherCall? || (e.Gets? && (!e.buffer || e.size == 0)) ||
              (e.Exec? && (!e.path || e.made.NotCreated?)) ==>
                currentTask.id == s.current + 1 && currentTask.eax == 0xFFFF_FFFF
      ensures e.Putc? ==> currentTask.id == s.current + 1 && currentTask.eax == 0
    {
      hide P.Step, AllLinked;
      A.ImmediateAnswers(s, e);
      TaskAt(currentTask);
    }

    lemma NothingMade()
      requires Valid()
      ensures S.GoodCreation(Abs(), P.NotCreated(used))
    {
    }

    /** PIDs stay below the number of frames. */
    lemma NextIdIsBounded()
      requires Valid()
      ensures nextTaskId <= total + 1
    {
      R.BlocksCount(Abs(), |byId|);
      Pmm.SubsetSize(R.BlocksOf(Abs(), |byId|), Pmm.Frames(total));
    }

    /** So the next PID fits a word, and so does the address of any control block. */
    lemma FieldsFit(m: Vmm.Machine)
      requires Valid() && RunsOn(m)
      ensures nextTaskId < WORD && currentTask.block < Paging.PAGES
    {
      NextIdIsBounded();
      assert S.TaskOk(Abs(), currentTask.id - 1) && LinkOk(byId, currentTask.id - 1);
    }

    /** Following `next` pointers from any task of the ring leads to every other. */
    ghost function FollowNext(task: ControlBlock, k: nat): (r: ControlBlock?)
      reads this, byId
      requires Linked() && InRing(byId, task)
      ensures r != null && InRing(byId, r) && r.id - 1 == P.Follow(|byId|, task.id - 1, k)
      decreases k
    {
      if k == 0 then task
      else
        var before := FollowNext(task, k - 1);
        assert LinkOk(byId, before.id - 1) && LinkOk(byId, P.Next(|byId|, before.id - 1));
        before.next
    }

    lemma NextReachesAll(a: ControlBlock, b: ControlBlock)
      requires Linked() && InRing(byId, a) && InRing(byId, b)
      ensures FollowNext(a, P.Distance(|byId|, a.id - 1, b.id - 1)) == b
    {
      P.RingIsOneCycle(|byId|, a.id - 1, b.id - 1);
    }

    constructor (keyboard: Keyboard, ghost total: nat)
      ensures this.keyboard == keyboard && this.total == total && used == {}
      ensures NotStarted() && taskQueueHead == null
    {
      this.keyboard := keyboard;
      this.total, used := total, {};
      currentTask, taskQueueHead, nextTaskId, halted := null, null, 1, false;
      byId, exits, execs, lines := [], map[], [], [];
    }

    // ----- schedule -----

    /** The ring search of `schedule`: the candidate it ends at, or none when it has come all the way
        round a ring of several tasks to the current one. */
    method Search() returns (candidate: ControlBlock?)
      requires Linked()
      ensures var r := P.Chosen(TasksOf(byId), currentTask.id - 1);
              if candidate == null then
                |byId| > 1 && r == if currentTask.Blocked() then None else Some(currentTask.id - 1)
              else InRing(byId, candidate) &&
                   (if r == None then candidate.Blocked() else r == Some(candidate.id - 1) && !candidate.Blocked()) &&
                   (candidate == currentTask ==> |byId| == 1)
    {
      hide P.Answer;
      ghost var tasks, current := TasksOf(byId), currentTask.id - 1;
      assert LinkOk(byId, current) && LinkOk(byId, P.Next(|byId|, current));
      candidate := currentTask.next;
      while candidate.Blocked() && candidate != currentTask
        invariant candidate != null && InRing(byId, candidate)
        invariant candidate == currentTask ==> |byId| == 1
        invariant P.Chosen(tasks, current) == P.Find(tasks, current, candidate.id - 1)
        decreases if candidate == currentTask then 0 else P.Distance(|byId|, candidate.id - 1, current)
      {
        assert LinkOk(byId, candidate.id - 1) && LinkOk(byId, P.Next(|byId|, candidate.id - 1));
        candidate := candidate.next;
        if candidate == currentTask { return null; }
      }
    }

    /** What `context_switch` to the task leads to: it goes on behind the `schedule` it was blocked in,
        if any, and finishes that system call. */
    method Resume(task: ControlBlock)
      requires task.Consistent()
      modifies task`eax, task`resume, task`pending, `execs, `lines
      ensures task.Consistent()
      ensures task.Abs() == old(task.Abs()).(eax := P.Answer(old(task.Abs())), pending := P.Nothing)
      ensures execs == old(execs) + P.ExecDone(task.id - 1, old(task.Abs()))
      ensures lines == old(lines) + P.GetsDone(task.id - 1, old(task.Abs()))
    {
      execs := execs + P.ExecDone(task.id - 1, task.Abs());
      lines := lines + P.GetsDone(task.id - 1, task.Abs());
      match task.resume {
        case InUser =>
        case BehindGets => task.eax := task.syscallRetval;
        case BehindExec => task.eax := task.childExitStatus;
      }
      task.resume, task.pending := InUser, P.Nothing;
    }

    lemma TaskAt(task: ControlBlock)
      requires InRing(byId, task)
      ensures TasksOf(byId)[task.id - 1] == task.Abs()
    {
    }

    method Demote(task: ControlBlock)
      requires AllLinked(byId) && InRing(byId, task)
      modifies task`state
      ensures AllLinked(byId) && TasksOf(byId) == old(TasksOf(byId))[task.id - 1 := P.Preempted(old(task.Abs()))]
    {
      Distinct(byId);
      assert LinkOk(byId, task.id - 1);
      if task.state == P.Running { task.state := P.Ready; }
      forall i: nat
        ensures LinkOk(byId, i)
      {
        assert old(LinkOk(byId, i));
      }
    }

    method Elect(task: ControlBlock)
      requires AllLinked(byId) && InRing(byId, task)
      modifies task`state, task`eax, task`resume, task`pending, `execs, `lines
      ensures AllLinked(byId) && TasksOf(byId) == old(TasksOf(byId))[task.id - 1 := P.Resumed(old(task.Abs()))]
      ensures execs == old(execs) + P.ExecDone(task.id - 1, old(task.Abs()))
      ensures lines == old(lines) + P.GetsDone(task.id - 1, old(task.Abs()))
    {
      Distinct(byId);
      assert LinkOk(byId, task.id - 1);
      task.state := P.Running;
      Resume(task);
      forall i: nat
        ensures LinkOk(byId, i)
      {
        assert old(LinkOk(byId, i));
      }
    }

    /** The end of `schedule`: the current task gives way to the candidate. */
    method SwitchTo(candidate: ControlBlock)
      requires Linked() && InRing(byId, candidate)
      modifies `currentTask, `execs, `lines, byId
      ensures Linked() && byId == old(byId)
      ensures Core() == P.Dispatch(old(Core()), candidate.id - 1)
    {
      hide TasksOf, AllLinked, P.Preempted, P.Resumed, P.Answer, P.ExecDone, P.GetsDone;
      TaskAt(currentTask);
      Demote(currentTask);
      TaskAt(candidate);
      Elect(candidate);
      currentTask := candidate;
    }

    /** `schedule`. The test at its end for a terminated task can never hold, since the candidate's
        state has just been set to running. */
    method Schedule()
      requires Linked()
      modifies `currentTask, `halted, `execs, `lines, byId
      ensures Linked() && byId == old(byId) && Core() == P.Schedule(old(Core()))
    {
      hide AllLinked, P.Find, P.Next, P.Dispatch, TasksOf;
      var candidate := Search();
      if candidate == null {
        if currentTask.Blocked() { halted := true; }
        return;
      }
      if candidate.Blocked() {
        halted := true;
        return;
      }
      SwitchTo(candidate);
    }

    // ----- system calls -----

    /** `regs[EAX]` of the current task. */
    method ReturnValue(v: Word32)
      requires Linked()
      modifies currentTask`eax
      ensures Linked() && Core() == P.SetEax(old(Core()), v)
    {
      Distinct(byId);
      currentTask.eax := v;
      forall i: nat
        ensures LinkOk(byId, i)
      {
        assert old(LinkOk(byId, i));
      }
    }

    /** A call of SYS_GETS or SYS_EXEC that is refused. */
    method Refuse(ghost e: P.Event)
      requires Valid() && !halted && S.GoodEvent(Abs(), e)
      requires (e.Gets? && (!e.buffer || e.size == 0)) || (e.Exec? && !e.path)
      modifies currentTask`eax
      ensures Valid() && Abs() == P.Step(old(Abs()), e) && currentTask.eax == 0xFFFF_FFFF
    {
      hide AllLinked, P.Step, Keyboard.Valid, S.Safe, S.GoodEvent;
      ghost var s, core := Abs(), Core();
      ReturnValue(P.FAILURE);
      RefusedLocal(core, s.reader, e);
      S.StepKeeps(s, e);
      AnsweredNow(s, e);
    }

    /** SYS_PUTC. */
    method SysPutc(c: C.Char)
      requires Valid() && !halted
      modifies currentTask`eax, keyboard.vga`x, keyboard.vga`y, keyboard.vga.buffer
      ensures Valid() && Abs() == P.Step(old(Abs()), P.Putc) && currentTask.eax == 0
      ensures keyboard.vga.Abs() == C.Print(old(keyboard.vga.Abs()), c, keyboard.color)
    {
      hide P.Step, S.Safe, AllLinked, C.Print;
      ghost var s, core := Abs(), Core();
      keyboard.vga.PrintChar(c, keyboard.vga.x, keyboard.vga.y, keyboard.color);
      ReturnValue(0);
      PutcLocal(core, s.reader);
      S.StepKeeps(s, P.Putc);
      AnsweredNow(s, P.Putc);
    }

    /** A system call with a number that is not known. */
    method OtherCall()
      requires Valid() && !halted
      modifies currentTask`eax
      ensures Valid() && Abs() == P.Step(old(Abs()), P.OtherCall) && currentTask.eax == 0xFFFF_FFFF
    {
      hide S.Safe, AllLinked;
      ghost var s := Abs();
      ReturnValue(P.FAILURE);
      S.StepKeeps(s, P.OtherCall);
      AnsweredNow(s, P.OtherCall);
    }

    /** The timer interrupt. */
    method Tick()
      requires Valid() && !halted
      modifies `currentTask, `halted, `execs, `lines, byId
      ensures Valid() && Abs() == P.Step(old(Abs()), P.Tick)
      ensures ExecAnswered(old(execs)) && GetsAnswered(old(lines))
    {
      hide P.Schedule, P.Step, S.Safe, Keyboard.Valid, AllLinked;
      ghost var s, core := Abs(), Core();
      Schedule();
      TickLocal(core, s.reader);
      S.StepKeeps(s, P.Tick);
      Answered(s, P.Tick);
    }

    lemma ParentInRing(task: ControlBlock)
      requires AllLinked(byId) && InRing(byId, task)
      ensures task.parent != null ==> InRing(byId, task.parent)
    {
      assert LinkOk(byId, task.id - 1);
    }

    method Terminate(task: ControlBlock)
      requires AllLinked(byId) && InRing(byId, task)
      modifies task`state
      ensures AllLinked(byId)
      ensures TasksOf(byId) == old(TasksOf(byId))[task.id - 1 := old(task.Abs()).(state := P.Terminated)]
    {
      Distinct(byId);
      assert LinkOk(byId, task.id - 1);
      task.state := P.Terminated;
      forall i: nat
        ensures LinkOk(byId, i)
      {
        assert old(LinkOk(byId, i));
      }
    }

    method Wake(task: ControlBlock, status: Word32)
      requires AllLinked(byId) && InRing(byId, task)
      modifies task`state, task`childExitStatus, task`childPidWaitingOn
      ensures AllLinked(byId)
      ensures TasksOf(byId) == old(TasksOf(byId))[task.id - 1 := P.Woken(old(task.Abs()), status)]
    {
      Distinct(byId);
      assert LinkOk(byId, task.id - 1);
      task.state := P.Ready;
      task.childExitStatus := status;
      task.childPidWaitingOn := 0;
      forall i: nat
        ensures LinkOk(byId, i)
      {
        assert old(LinkOk(byId, i));
      }
    }

    /** SYS_EXIT up to its `schedule`: the current task ends, a parent that waits for it wakes up. */
    method End(status: Word32)
      requires Linked()
      modifies `exits, byId
      ensures Linked() && byId == old(byId) && currentTask == old(currentTask)
      ensures Core() == P.Ended(old(Core()), status)
    {
      hide AllLinked, TasksOf, P.Ended, P.Woken;
      ghost var core := Core();
      ParentInRing(currentTask);
      TaskAt(currentTask);
      Terminate(currentTask);
      ghost var ended := TasksOf(byId);
      var parent := currentTask.parent;
      ghost var woken := false;
      if parent != null { TaskAt(parent); }
      if parent != null && parent.state == P.WaitingForChild && parent.childPidWaitingOn == currentTask.id {
        woken := true;
        Wake(parent, status);
      }
      exits := exits[currentTask.id - 1 := status];
      EndedIs(core, status, ended, if parent == null then None else Some(parent.id - 1), woken, TasksOf(byId));
    }

    /** SYS_EXIT. */
    method SysExit(status: Word32)
      requires Valid() && !halted
      modifies `currentTask, `halted, `exits, `execs, `lines, byId
      ensures Valid() && Abs() == P.Step(old(Abs()), P.Exit(status))
      ensures ExecAnswered(old(execs)) && GetsAnswered(old(lines))
    {
      hide P.Ended, P.Schedule, P.Step, S.Safe, Keyboard.Valid, AllLinked;
      ghost var s, core := Abs(), Core();
      End(status);
      Schedule();
      ExitLocal(core, s.reader, status);
      S.StepKeeps(s, P.Exit(status));
      Answered(s, P.Exit(status));
    }

    /** SYS_GETS up to its `schedule`: the current task is blocked, whether or not it became the reader. */
    method BlockOnKeyboard(task: ControlBlock)
      requires AllLinked(byId) && InRing(byId, task)
      modifies task`state, task`resume, task`pending
      ensures AllLinked(byId)
      ensures TasksOf(byId) ==
              old(TasksOf(byId))[task.id - 1 := old(task.Abs()).(state := P.WaitingForKeyboard, pending := P.InGets)]
    {
      Distinct(byId);
      assert LinkOk(byId, task.id - 1);
      task.state := P.WaitingForKeyboard;
      task.resume, task.pending := BehindGets, P.InGets;
      forall i: nat
        ensures LinkOk(byId, i)
      {
        assert old(LinkOk(byId, i));
      }
    }

    /** The end of SYS_GETS. */
    method WaitForLine()
      requires Linked()
      modifies `currentTask, `halted, `execs, `lines, byId
      ensures Linked() && byId == old(byId) && Core() == P.Schedule(BlockedInGets(old(Core())))
    {
      hide AllLinked, P.Schedule;
      BlockOnKeyboard(currentTask);
      Schedule();
    }

    /** SYS_GETS for a buffer as long as the caller says. */
    method SysGets(userBuffer: array?<C.Char>, size: nat)
      requires Valid() && !halted
      requires userBuffer != null && size > 0 ==>
                 && userBuffer.Length == size
                 && userBuffer != keyboard.buffer && userBuffer as object != keyboard.vga.buffer
      modifies `currentTask, `halted, `execs, `lines, byId
      modifies keyboard`idx, keyboard`userTarget, keyboard`userMaxSize, keyboard`taskWaiting, keyboard`charsRead
      modifies keyboard.buffer
      ensures Valid() && Abs() == P.Step(old(Abs()), P.Gets(userBuffer != null, size))
      ensures ExecAnswered(old(execs)) && GetsAnswered(old(lines))
      ensures userBuffer == null || size == 0 ==> currentTask == old(currentTask) && currentTask.eax == 0xFFFF_FFFF
      ensures old(keyboard.taskWaiting) != null ==>
                && keyboard.taskWaiting == old(keyboard.taskWaiting) && keyboard.userTarget == old(keyboard.userTarget)
                && keyboard.userMaxSize == old(keyboard.userMaxSize) && keyboard.Line() == old(keyboard.Line())
      ensures old(keyboard.taskWaiting) == null ==>
                if userBuffer != null && size > 0
                then keyboard.taskWaiting == old(currentTask) && keyboard.userTarget == userBuffer
                else keyboard.taskWaiting == null && keyboard.userTarget == null
    {
      hide P.Reading, P.Schedule, P.Step, S.Safe, AllLinked, BlockedInGets, TasksOf;
      ghost var s, core := Abs(), Core();
      if userBuffer == null || size == 0 {
        Refuse(P.Gets(userBuffer != null, size));
        return;
      }
      keyboard.PrepareForGets(userBuffer, size, currentTask);
      WaitForLine();
      GetsLocal(core, s.reader, size, ReaderOf());
      S.StepKeeps(s, P.Gets(true, size));
      Answered(s, P.Gets(true, size));
    }

    // ----- the keyboard interrupt -----

    lemma ReaderIsBehindGets()
      requires Valid() && keyboard.taskWaiting != null
      ensures keyboard.taskWaiting.resume == BehindGets
    {
      var i := keyboard.taskWaiting.id - 1;
      assert S.TaskOk(Abs(), i) && LinkOk(byId, i);
    }

    /** The reader has been made ready and will return the length of the line. */
    ghost predicate WokenWith(task: ControlBlock?, length: nat)
      reads task
    {
      task != null && task.state == P.Ready && task.syscallRetval == length
    }

    /** Enter while a task reads. */
    method FinishLine()
      requires Linked() && DriverOk() && !halted
      requires keyboard.taskWaiting != null && keyboard.taskWaiting.resume == BehindGets
      modifies keyboard`idx, keyboard`userTarget, keyboard`taskWaiting, keyboard`charsRead, keyboard.buffer
      modifies keyboard.vga`x, keyboard.vga`y, keyboard.vga.buffer, keyboard.userTarget, keyboard.taskWaiting
      ensures Linked() && DriverOk() && Abs() == P.KeyPress(old(Abs()), C.NEWLINE)
      ensures old(keyboard.idx) < old(keyboard.userTarget).Length
      ensures old(keyboard.userTarget)[..] ==
              old(keyboard.Line()) + [0] + old(keyboard.userTarget[keyboard.idx + 1..])
      ensures keyboard.taskWaiting == null && WokenWith(old(keyboard.taskWaiting), |old(keyboard.Line())|)
      ensures keyboard.vga.Abs() == C.Print(old(keyboard.vga.Abs()), C.NEWLINE, keyboard.color)
    {
      hide C.Print, C.OnScreen;
      ghost var s, task := Abs(), keyboard.taskWaiting;
      Distinct(byId);
      assert LinkOk(byId, task.id - 1);
      keyboard.FinishLine();
      forall i: nat
        ensures LinkOk(byId, i)
      {
        assert old(LinkOk(byId, i));
      }
      assert TasksOf(byId) == P.KeyPress(s, C.NEWLINE).tasks;
    }

    /** Another key while a task reads. */
    method EditKey(c: C.Char)
      requires Linked() && DriverOk() && !halted && keyboard.taskWaiting != null && c != C.NEWLINE
      modifies keyboard`idx, keyboard.buffer, keyboard.vga`x, keyboard.vga`y, keyboard.vga.buffer
      ensures Linked() && DriverOk() && Abs() == P.KeyPress(old(Abs()), c)
      ensures keyboard.Line() == E.Edit(old(keyboard.Line()), keyboard.userMaxSize, c)
      ensures keyboard.vga.Abs() ==
              E.EchoOnScreen(old(keyboard.vga.Abs()), old(keyboard.Line()), keyboard.userMaxSize, c, keyboard.color)
    {
      hide C.Print, C.OnScreen, AllLinked, TasksOf, E.Edit, E.EchoOnScreen;
      keyboard.EditLine(c);
    }

    /** `keyboard_handler_main` for a scancode. */
    method KeyboardInterrupt(scancode: nat)
      requires Valid() && !halted && scancode < 0x100
      modifies keyboard`idx, keyboard`userTarget, keyboard`taskWaiting, keyboard`charsRead, keyboard.buffer
      modifies keyboard.vga`x, keyboard.vga`y, keyboard.vga.buffer, keyboard.userTarget, keyboard.taskWaiting
      ensures Valid()
      ensures Abs() == if Ascii(scancode) == 0 then old(Abs()) else P.Step(old(Abs()), P.Key(Ascii(scancode)))
      ensures var c := Ascii(scancode);
              keyboard.vga.Abs() ==
              if c == 0 || old(keyboard.taskWaiting) == null then old(keyboard.vga.Abs())
              else if c == C.NEWLINE then C.Print(old(keyboard.vga.Abs()), c, keyboard.color)
              else E.EchoOnScreen(old(keyboard.vga.Abs()), old(keyboard.Line()), old(keyboard.userMaxSize),
                                  c, keyboard.color)
      ensures keyboard.userTarget == if Ascii(scancode) == C.NEWLINE then null else old(keyboard.userTarget)
      ensures Ascii(scancode) == C.NEWLINE && old(keyboard.userTarget) != null ==>
              && old(keyboard.idx) < old(keyboard.userTarget).Length
              && old(keyboard.userTarget)[..] ==
                 old(keyboard.Line()) + [0] + old(keyboard.userTarget[keyboard.idx + 1..])
              && keyboard.taskWaiting == null && WokenWith(old(keyboard.taskWaiting), |old(keyboard.Line())|)
      ensures Ascii(scancode) != C.NEWLINE ==>
              keyboard.taskWaiting == old(keyboard.taskWaiting) && keyboard.userMaxSize == old(keyboard.userMaxSize)
      ensures Ascii(scancode) != C.NEWLINE && old(keyboard.userTarget) != null ==>
              && keyboard.userTarget[..] == old(keyboard.userTarget[..])
              && keyboard.Line() == E.Edit(old(keyboard.Line()), keyboard.userMaxSize, Ascii(scancode))
    {
      hide C.Print, C.OnScreen, S.Safe, Linked, AllLinked, TasksOf, Core, E.Edit, E.EchoOnScreen;
      AbsIs();
      ghost var s := Abs();
      var c := Ascii(scancode);
      if keyboard.taskWaiting != null {
        E.NoCharacter(keyboard.vga.Abs(), keyboard.Line(), keyboard.userMaxSize, keyboard.color);
      }
      if c != 0 {
        S.StepKeeps(s, P.Key(c));
        if keyboard.taskWaiting != null {
          if c == C.NEWLINE {
            ReaderIsBehindGets();
            FinishLine();
          } else {
            EditKey(c);
          }
        }
      }
    }

    // ----- making tasks -----

    /** The ring insertion: right behind the boot task. */
    method Insert(task: ControlBlock)
      requires AllLinked(byId) && byId != [] && taskQueueHead == byId[0] && task !in byId
      requires task.id == |byId| + 1 && task.Consistent() && (task.parent != null ==> InRing(byId, task.parent))
      modifies `byId, taskQueueHead`next, task`next
      ensures AllLinked(byId) && byId == old(byId) + [task]
      ensures TasksOf(byId) == old(TasksOf(byId)) + [old(task.Abs())]
    {
      ghost var n := |byId|;
      Distinct(byId);
      assert LinkOk(byId, 0) && LinkOk(byId, P.Next(n, 0));
      task.next := taskQueueHead.next;
      taskQueueHead.next := task;
      byId := byId + [task];
      forall i: nat
        ensures LinkOk(byId, i)
      {
        hide TasksOf;
        assert old(LinkOk(byId, i));
      }
      assert TasksOf(byId) == old(TasksOf(byId)) + [old(task.Abs())] by {
        hide AllLinked, LinkOk;
      }
    }

    /** A new task in the ring, under the next id. */
    method LinkIn(parent: ControlBlock?, ghost awaited: bool, block: nat) returns (task: ControlBlock)
      requires Linked() && (parent != null ==> InRing(byId, parent))
      modifies `byId, `nextTaskId, taskQueueHead`next
      ensures Linked() && fresh(task) && byId == old(byId) + [task] && task.block == block
      ensures task.id == old(nextTaskId) && nextTaskId == old(nextTaskId) + 1
      ensures TasksOf(byId) == old(TasksOf(byId)) +
              [P.Task(P.Ready, if parent == null then None else Some(parent.id - 1), 0, 0, 0, 0,
                      P.Nothing, awaited, block)]
    {
      hide AllLinked;
      task := new ControlBlock(nextTaskId, P.Ready, parent, awaited, block);
      nextTaskId := nextTaskId + 1;
      Insert(task);
    }

    /** The new task, and the frames now in use. */
    method AddTask(m: Vmm.Machine, parent: ControlBlock?, ghost awaited: bool, block: nat) returns (task: ControlBlock)
      requires Linked() && DriverOk() && m.Sound() && m.mem.Length == total && Beside(m)
      requires parent != null ==> InRing(byId, parent)
      modifies `byId, `nextTaskId, `used, taskQueueHead`next
      ensures Linked() && DriverOk() && (m.Valid() ==> RunsOn(m))
      ensures byId == old(byId) + [task] && fresh(task) && task.block == block
      ensures task.id == old(nextTaskId) && nextTaskId == old(nextTaskId) + 1 && used == m.frames.Used()
      ensures Abs() == P.AddTask(old(Abs()), P.Created(block, m.frames.Used()),
                                 if parent == null then None else Some(parent.id - 1), awaited)
    {
      hide AllLinked, Paging.Inv, Keyboard.Valid;
      task := LinkIn(parent, awaited, block);
      used := m.frames.Used();
    }

    /** No new task; the frames now in use. */
    ghost method NoTask(m: Vmm.Machine, parent: Option<nat>, awaited: bool)
      requires Linked() && DriverOk() && m.Sound() && m.mem.Length == total && Beside(m)
      modifies `used
      ensures Linked() && DriverOk() && (m.Valid() ==> RunsOn(m)) && used == m.frames.Used()
      ensures Abs() == P.AddTask(old(Abs()), P.NotCreated(m.frames.Used()), parent, awaited)
    {
      hide AllLinked, Paging.Inv, Keyboard.Valid;
      used := m.frames.Used();
    }

    /** The memory side of `create_task`, which leaves tasks and driver alone. */
    method BuildTask(m: Vmm.Machine, entryPoint: Word32, id: Word32)
      returns (status: Vmm.NewPage, block: nat, stack: nat, sp: nat)
      requires Linked() && DriverOk() && RunsOn(m)
      modifies m`intact, m.mem, m.frames`usedPages, m.frames.memoryMap
      ensures Linked() && DriverOk() && Abs() == old(Abs())
      ensures Beside(m) && m.mem.Length == total && m.Sound()
      ensures status != Vmm.Stop && m.intact ==> m.Valid()
      ensures status == Vmm.NoMemory ==> m.frames.Used() == used && total < |used| + 2
      ensures status == Vmm.Fresh && m.intact ==>
                S.GoodCreation(old(Abs()), P.Created(block, m.frames.Used())) && |m.frames.Used()| == |used| + 2
      ensures status == Vmm.Fresh ==>
                (m.intact <==> Process.TaskBuilt(old(m.Abs()), m.Abs(), id, entryPoint, block, stack, sp))
      ensures status == Vmm.Fresh && m.intact <==> Paging.Spare(old(m.Abs())) >= 2
      ensures UserMemory.Quiet(old(m.Abs())) && status != Vmm.Stop ==> m.intact && UserMemory.Quiet(m.Abs())
    {
      hide TasksOf, Core, ReaderOf, Abs, Linked, DriverOk, S.GoodCreation, Paging.Sane, Paging.Grew, Paging.Spare,
           Process.TaskBuilt, Process.TaskEnds, UserMemory.Quiet;
      AbsIs();
      ghost var s := m.Abs();
      status, block, stack, sp := Process.CreateTask(m, entryPoint, id);
      if status == Vmm.Fresh && m.intact {
        TaskMadeWell(Abs(), s, m.Abs(), id, entryPoint, block, stack, sp);
      }
    }

    /** `create_task`. NULL leaves tasks, ids and frames exactly as they were. What it promises, it
        promises when no store has gone astray; that and the task come together exactly when two frames
        below 8 MB are free. */
    method CreateTask(m: Vmm.Machine, entryPoint: Word32)
      returns (task: ControlBlock?, stopped: bool, ghost stack: nat, ghost sp: nat)
      requires Valid() && RunsOn(m) && !halted
      modifies `byId, `nextTaskId, `used, taskQueueHead`next, m`intact, m.mem, m.frames`usedPages, m.frames.memoryMap
      ensures m.Sound()
      ensures !stopped && m.intact ==> Valid() && RunsOn(m)
      ensures !stopped && m.intact && task == null ==> Abs() == old(Abs()) && m.mem.Length < |old(used)| + 2
      ensures !stopped && m.intact && task != null ==>
                && byId == old(byId) + [task] && task.id == old(nextTaskId) && nextTaskId == old(nextTaskId) + 1
                && |used| == |old(used)| + 2
                && S.GoodCreation(old(Abs()), P.Created(task.block, used))
                && Abs() == P.Step(old(Abs()), P.CreateTask(P.Created(task.block, used)))
                && Process.TaskBuilt(old(m.Abs()), m.Abs(), task.id, entryPoint, task.block, stack, sp)
      ensures !stopped && m.intact && task != null <==> Paging.Spare(old(m.Abs())) >= 2
      ensures UserMemory.Quiet(old(m.Abs())) && !stopped ==> m.intact && UserMemory.Quiet(m.Abs())
    {
      hide TasksOf, Core, ReaderOf, Abs, DriverOk, S.Safe, S.GoodCreation, AllLinked, P.AddTask, P.Step,
           Keyboard.Valid, Vmm.Machine.Valid, Beside, UserMemory.Quiet, Paging.Spare, Process.TaskBuilt;
      Usable(m);
      FieldsFit(m);
      AbsIs();
      ghost var s := Abs();
      task, stopped, stack, sp := null, false, 0, 0;
      var status, block, top, at := BuildTask(m, entryPoint, nextTaskId);
      if status == Vmm.Stop { return null, true, 0, 0; }
      if status == Vmm.NoMemory { return; }
      stack, sp := top, at;
      task := AddTask(m, null, false, block);
      ghost var e := P.CreateTask(P.Created(block, used));
      CreateLocal(s, e);
      if m.intact { S.StepKeeps(s, e); }
    }

    /** The memory side of `create_user_process`, which leaves tasks and driver alone. */
    method BuildProcess(m: Vmm.Machine, path: string, argv: Option<seq<seq<Byte>>>, images: Process.Images,
                        id: Word32, parent: Word32)
      returns (r: Process.NewProcess)
      requires Linked() && DriverOk() && RunsOn(m)
      requires Callable(path, argv, images)
      modifies m`intact, m.mem, m.frames`usedPages, m.frames.memoryMap
      ensures Linked() && DriverOk() && Abs() == old(Abs())
      ensures Beside(m) && m.mem.Length == total && m.Sound()
      ensures r.Built? ==> r.id == id && r.parent == parent
      ensures !r.NeverBuilt? && m.intact ==>
                m.Valid() && S.GoodCreation(Abs(), Creation(r, m.frames.Used()))
      ensures Outcome(old(m.Abs()), m.Abs(), Process.Program(path, images), argv.UnwrapOr([]), r, m.intact)
    {
      hide TasksOf, Core, ReaderOf, Abs, Linked, DriverOk, Outcome, S.GoodCreation, Creation, Paging.Sane,
           Paging.Tables, UserMemory.Quiet, Process.EndsWithStack, Process.Enough, Process.Refused,
           Process.ProcessBuilt, Process.FitsBeside, Paging.Took, Paging.InTurn, Elf.WellFormed, Elf.FileTables,
           UserStack.StackTables;
      AbsIs();
      ghost var s, file := m.Abs(), Process.Program(path, images);
      r := Process.CreateUserProcess(m, path, argv, images, id, parent);
      OutcomeOf(s, m.Abs(), path, images, argv.UnwrapOr([]), r, m.intact);
      if !r.NeverBuilt? && m.intact { MadeWell(Abs(), s, m.Abs(), file, argv.UnwrapOr([]), r); }
    }

    /** `create_user_process`: the PID of the new process, or -1. `made` says what it did to the tasks
        and the frames, `built` what it set up in memory. */
    method CreateUserProcess(m: Vmm.Machine, path: string, argv: Option<seq<seq<Byte>>>, images: Process.Images,
                             ghost awaited: bool)
      returns (pid: int, stopped: bool, ghost made: P.Creation, ghost built: Process.NewProcess)
      requires Valid() && RunsOn(m)
      requires Callable(path, argv, images)
      modifies `byId, `nextTaskId, `used, taskQueueHead`next, m`intact, m.mem, m.frames`usedPages, m.frames.memoryMap
      ensures m.Sound()
      ensures !stopped ==> Linked() && DriverOk()
      ensures !stopped ==> Abs() == P.AddTask(old(Abs()), made, Some(old(currentTask).id - 1), awaited)
      ensures !stopped && m.intact ==> RunsOn(m) && S.GoodCreation(old(Abs()), made)
      ensures old(byId) <= byId && fresh(byId[|old(byId)|..]) && currentTask == old(currentTask)
      ensures !stopped && pid < 0 ==> made.NotCreated? && pid == -1 && byId == old(byId)
      ensures !stopped && pid >= 0 ==>
                && made.Created? && pid == old(nextTaskId) && |byId| == |old(byId)| + 1
                && built.Built? && built.block == made.block
                && built.id == pid && built.parent == 4096 * old(currentTask).block
      ensures stopped == built.NeverBuilt? && (!stopped ==> (pid >= 0 <==> built.Built?))
      ensures Outcome(old(m.Abs()), m.Abs(), Process.Program(path, images), argv.UnwrapOr([]), built, m.intact)
    {
      hide Vmm.Machine.Valid, AllLinked, S.Safe, S.GoodCreation, P.AddTask, TasksOf, Core, ReaderOf, Abs, DriverOk,
           Process.ProcessBuilt, Callable, Keyboard.Valid, Beside, Outcome;
      Usable(m);
      FieldsFit(m);
      ghost var s := Abs();
      pid, stopped := -1, false;
      var r := BuildProcess(m, path, argv, images, nextTaskId, 4096 * currentTask.block);
      built := r;
      made := P.NotCreated(m.frames.Used());
      if r.NeverBuilt? { return -1, true, made, built; }
      if r.Failed? {
        NoTask(m, Some(currentTask.id - 1), awaited);
        return;
      }
      var task := AddTask(m, currentTask, awaited, r.block);
      made := P.Created(r.block, used);
      pid := task.id;
    }

    /** `create_user_process` called by the kernel itself: nobody waits for the new process. */
    method Spawn(m: Vmm.Machine, path: string, argv: Option<seq<seq<Byte>>>, images: Process.Images)
      returns (pid: int, stopped: bool, ghost made: P.Creation, ghost built: Process.NewProcess)
      requires Valid() && RunsOn(m) && !halted && Callable(path, argv, images)
      modifies `byId, `nextTaskId, `used, taskQueueHead`next, m`intact, m.mem, m.frames`usedPages, m.frames.memoryMap
      ensures m.Sound()
      ensures !stopped && m.intact ==> Valid() && RunsOn(m) && S.GoodCreation(old(Abs()), made)
      ensures !stopped && m.intact ==> Abs() == P.Step(old(Abs()), P.Spawn(made))
      ensures !stopped && pid < 0 ==> made.NotCreated? && pid == -1
      ensures !stopped && pid >= 0 ==>
                && made.Created? && pid == old(nextTaskId) && |byId| == |old(byId)| + 1
                && built.Built? && built.block == made.block
                && built.id == pid && built.parent == 4096 * old(currentTask).block
      ensures stopped == built.NeverBuilt? && (!stopped ==> (pid >= 0 <==> built.Built?))
      ensures Outcome(old(m.Abs()), m.Abs(), Process.Program(path, images), argv.UnwrapOr([]), built, m.intact)
    {
      hide TasksOf, Core, ReaderOf, Abs, DriverOk, Vmm.Machine.Valid, AllLinked, S.Safe, S.GoodCreation, P.AddTask,
           P.Step, Process.ProcessBuilt, Callable, Keyboard.Valid, Beside, Outcome;
      Usable(m);
      AbsIs();
      ghost var s := Abs();
      pid, stopped, made, built := CreateUserProcess(m, path, argv, images, false);
      if !stopped && m.intact {
        CreateLocal(s, P.Spawn(made));
        S.StepKeeps(s, P.Spawn(made));
      }
    }

    /** A successful SYS_EXEC up to its `schedule`. */
    method BlockOnChild(task: ControlBlock, pid: Pid)
      requires AllLinked(byId) && InRing(byId, task)
      modifies task`state, task`childPidWaitingOn, task`resume, task`pending
      ensures AllLinked(byId)
      ensures TasksOf(byId) ==
              old(TasksOf(byId))[task.id - 1 :=
                old(task.Abs()).(state := P.WaitingForChild, waitingOn := pid, pending := P.InExec(pid - 1))]
    {
      Distinct(byId);
      assert LinkOk(byId, task.id - 1);
      task.state := P.WaitingForChild;
      task.childPidWaitingOn := pid;
      task.resume, task.pending := BehindExec, P.InExec(pid - 1);
      forall i: nat
        ensures LinkOk(byId, i)
      {
        assert old(LinkOk(byId, i));
      }
    }

    /** The end of SYS_EXEC, after `create_user_process` has made `made` of state `s`. */
    method FinishExec(pid: int, ghost s: P.State, ghost made: P.Creation)
      requires Linked() && DriverOk() && !s.halted && s.current < |s.tasks|
      requires Abs() == P.AddTask(s, made, Some(s.current), true) && currentTask.id == s.current + 1
      requires if pid < 0 then made.NotCreated? else made.Created? && pid == |byId|
      modifies `currentTask, `halted, `execs, `lines, byId
      ensures Linked() && DriverOk() && Abs() == P.Step(s, P.Exec(true, made))
      ensures pid < 0 ==> currentTask == old(currentTask)
    {
      hide AllLinked, TasksOf, P.AddTask, P.Step, P.Schedule, Keyboard.Valid;
      TaskAt(currentTask);
      ghost var u := Abs();
      if pid < 0 {
        ReturnValue(P.FAILURE);
        FailedLocal(s, made, u);
      } else {
        BlockOnChild(currentTask, pid);
        ghost var blocked := Core();
        Schedule();
        ExecLocal(s, made, u, blocked);
      }
    }

    /** SYS_EXEC with a path. */
    method ExecPath(m: Vmm.Machine, path: string, argv: Option<seq<seq<Byte>>>, images: Process.Images)
      returns (stopped: bool, ghost made: P.Creation, ghost built: Process.NewProcess)
      requires Valid() && RunsOn(m) && !halted && Callable(path, argv, images)
      modifies `currentTask, `halted, `execs, `lines, `byId, `nextTaskId, `used, byId
      modifies m`intact, m.mem, m.frames`usedPages, m.frames.memoryMap
      ensures m.Sound()
      ensures !stopped && m.intact ==> Valid() && RunsOn(m) && S.GoodCreation(old(Abs()), made)
      ensures !stopped && m.intact ==> Abs() == P.Step(old(Abs()), P.Exec(true, made))
      ensures !stopped && m.intact ==> ExecAnswered(old(execs)) && GetsAnswered(old(lines))
      ensures !stopped && m.intact && made.NotCreated? ==>
                currentTask == old(currentTask) && currentTask.eax == 0xFFFF_FFFF
      ensures old(byId) <= byId && fresh(byId[|old(byId)|..])
      ensures stopped == built.NeverBuilt? && (!stopped ==> (made.Created? <==> built.Built?))
      ensures !stopped && made.Created? ==>
                && built.block == made.block && built.id == old(nextTaskId)
                && built.parent == 4096 * old(currentTask).block
      ensures Outcome(old(m.Abs()), m.Abs(), Process.Program(path, images), argv.UnwrapOr([]), built, m.intact)
    {
      hide TasksOf, Core, ReaderOf, Abs, DriverOk, Vmm.Machine.Valid, AllLinked, S.Safe, S.GoodCreation, P.AddTask,
           P.Step, Process.ProcessBuilt, Callable, Keyboard.Valid, Beside, Outcome;
      Usable(m);
      AbsIs();
      ghost var s := Abs();
      var pid: int;
      pid, stopped, made, built := CreateUserProcess(m, path, argv, images, true);
      forall t | t in byId
        ensures t in old(byId) || fresh(t)
      {
        assert byId == old(byId) + byId[|old(byId)|..];
      }
      if stopped { return; }
      FinishExec(pid, s, made);
      if m.intact {
        S.StepKeeps(s, P.Exec(true, made));
        Answered(s, P.Exec(true, made));
        AnsweredNow(s, P.Exec(true, made));
      }
    }

    /** SYS_EXEC. */
    method SysExec(m: Vmm.Machine, path: Option<string>, argv: Option<seq<seq<Byte>>>, images: Process.Images)
      returns (stopped: bool, ghost made: P.Creation, ghost built: Process.NewProcess)
      requires Valid() && RunsOn(m) && !halted && (path.Some? ==> Callable(path.value, argv, images))
      modifies `currentTask, `halted, `execs, `lines, `byId, `nextTaskId, `used, byId
      modifies m`intact, m.mem, m.frames`usedPages, m.frames.memoryMap
      ensures m.Sound()
      ensures !stopped && m.intact ==> Valid() && RunsOn(m) && S.GoodCreation(old(Abs()), made)
      ensures !stopped && m.intact ==> Abs() == P.Step(old(Abs()), P.Exec(path.Some?, made))
      ensures !stopped && m.intact ==> ExecAnswered(old(execs)) && GetsAnswered(old(lines))
      ensures path == None || (!stopped && m.intact && made.NotCreated?) ==>
                currentTask == old(currentTask) && currentTask.eax == 0xFFFF_FFFF
      ensures old(byId) <= byId && fresh(byId[|old(byId)|..])
      ensures path == None ==> !stopped && m.intact && m.Abs() == old(m.Abs())
      ensures path.Some? ==>
                && stopped == built.NeverBuilt? && (!stopped ==> (made.Created? <==> built.Built?))
                && (!stopped && made.Created? ==>
                      && built.block == made.block && built.id == old(nextTaskId)
                      && built.parent == 4096 * old(currentTask).block)
                && Outcome(old(m.Abs()), m.Abs(), Process.Program(path.value, images), argv.UnwrapOr([]), built,
                           m.intact)
    {
      hide TasksOf, Core, ReaderOf, Abs, DriverOk, Vmm.Machine.Valid, AllLinked, S.Safe, S.GoodCreation, P.Step,
           Process.ProcessBuilt, Callable, Keyboard.Valid, Beside, Outcome;
      Usable(m);
      if path == None {
        stopped, made, built := false, P.NotCreated(used), Process.Failed;
        NothingMade();
        Refuse(P.Exec(false, made));
      } else {
        stopped, made, built := ExecPath(m, path.value, argv, images);
      }
    }

    /** Before `tasking_init`. */
    ghost predicate NotStarted()
      reads this
    {
      && currentTask == null && byId == [] && nextTaskId == 1 && !halted
      && exits == map[] && execs == [] && lines == []
    }

    /** The ring of `tasking_init`. */
    method StartRing(block: nat)
      requires NotStarted()
      modifies `currentTask, `taskQueueHead, `nextTaskId, `byId
      ensures Linked() && Core() == P.Booted(used, total, block)
      ensures currentTask.id == 1 && currentTask.block == block
    {
      currentTask := new ControlBlock(nextTaskId, P.Running, null, false, block);
      nextTaskId := nextTaskId + 1;
      currentTask.next := currentTask;
      taskQueueHead := currentTask;
      byId := [currentTask];
      assert LinkOk(byId, 0);
    }

    /** The boot task with its control block in frame `block`, which has just been taken. */
    method StartTasking(m: Vmm.Machine, block: nat)
      requires NotStarted() && keyboard.Valid() && keyboard.taskWaiting == null
      requires m.Sound() && m.mem.Length == total && Beside(m) && block in m.frames.Used()
      modifies `currentTask, `taskQueueHead, `nextTaskId, `byId, `used
      ensures currentTask != null && currentTask.id == 1 && currentTask.block == block
      ensures m.Valid() ==> Valid() && RunsOn(m) && !halted && Abs() == P.Booted(m.frames.Used(), total, block)
    {
      hide AllLinked, S.Safe, Vmm.Machine.Valid, P.Booted, Keyboard.Valid;
      used := m.frames.Used();
      BootedSafely(m, block);
      BootedHasNoReader(used, total, block);
      StartRing(block);
    }

    /** `tasking_init`: the boot task, alone in the ring. */
    method TaskingInit(m: Vmm.Machine) returns (stopped: bool)
      requires NotStarted() && keyboard.Valid() && keyboard.taskWaiting == null
      requires m.Valid() && m.mem.Length == total && Beside(m)
      modifies `currentTask, `taskQueueHead, `nextTaskId, `byId, `used
      modifies m`intact, m.mem, m.frames`usedPages, m.frames.memoryMap
      ensures Paging.LeastFree(old(m.Abs())) == total ==> !stopped && m.intact && currentTask == null
      ensures !stopped && m.intact && currentTask != null <==> Paging.Spare(old(m.Abs())) > 0
      ensures !stopped && m.intact && currentTask != null ==>
                && Valid() && RunsOn(m) && !halted
                && Abs() == P.Booted(used, total, Paging.LeastFree(old(m.Abs())))
      ensures !stopped && m.intact && currentTask != null ==>
                var s, block := old(m.Abs()), currentTask.block;
                && block == Paging.LeastFree(s) < |s.mem| && currentTask.id == 1
                && KernelFrames.BootBlockHolds(s.mem[block], m.Abs().mem[block], block)
      ensures UserMemory.Quiet(old(m.Abs())) && !stopped ==> m.intact && UserMemory.Quiet(m.Abs())
    {
      hide Valid, P.Booted, Paging.LeastFree, Keyboard.Valid, Paging.Sane, Paging.Spare, KernelFrames.TakingEnds,
           KernelFrames.BootBlockHolds, UserMemory.Quiet;
      ghost var s := m.Abs();
      var status, block := KernelFrames.NewBootBlock(m);
      stopped := status == Vmm.Stop;
      BootBlockTaken(s, m.Abs(), status, block, m.intact);
      if status != Vmm.Fresh { return; }
      StartTasking(m, block);
    }
  }
}
