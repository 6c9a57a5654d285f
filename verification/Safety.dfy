/** What holds in every reachable state of the task machine. */
module Safety {
  import opened Options
  import opened Words
  import opened Console
  import opened LineEditor
  import opened Protocol
  import Pmm

  // ----- the invariant -----

  /** Task `i` has just started EXEC of `c` and waits, or `c` has exited and woken it. */
  ghost predicate ExecPending(s: State, i: nat, c: nat)
    requires i < |s.tasks|
  {
    var t := s.tasks[i];
    && c < |s.tasks| && s.tasks[c].parent == Some(i) && s.tasks[c].awaited
    && (if t.state == WaitingForChild then t.waitingOn == c + 1 && c !in s.exits
        else t.state == Ready && c in s.exits && t.exitStatus == s.exits[c])
  }

  ghost predicate PendingOk(s: State, i: nat)
    requires i < |s.tasks|
  {
    var t := s.tasks[i];
    match t.pending
    case Nothing => t.state == Running || t.state == Ready || t.state == Terminated
    case InGets => t.state == WaitingForKeyboard
    case Typed(line) => t.state == Ready && t.retval == |line|
    case InExec(c) => ExecPending(s, i, c)
  }

  ghost predicate TaskOk(s: State, i: nat) {
    i < |s.tasks| ==>
      var t := s.tasks[i];
      && PendingOk(s, i)
      && (t.state != WaitingForChild ==> t.waitingOn == 0)
      && (t.state == Terminated <==> i in s.exits)
      && (t.parent.Some? ==> t.parent.value < i)
      && (t.awaited ==> t.parent.Some?)
      && (t.state == Running ==> i == s.current)
      && t.block in s.used
  }

  ghost predicate BlocksDiffer(s: State, i: nat, j: nat) {
    i < j < |s.tasks| ==> s.tasks[i].block != s.tasks[j].block
  }

  /** How often a value has been returned for child `c`. */
  function Count(execs: seq<ExecReturn>, c: nat): nat
  {
    if execs == [] then 0
    else Count(execs[..|execs| - 1], c) + if execs[|execs| - 1].child == c then 1 else 0
  }

  predicate StillPending(s: State, c: nat) {
    c < |s.tasks| && s.tasks[c].parent.Some? && s.tasks[c].parent.value < |s.tasks| &&
    s.tasks[s.tasks[c].parent.value].pending == InExec(c)
  }

  /** For each child of a SYS_EXEC, either its parent has still to come back from that call, or it
      has come back from it once. */
  ghost predicate DeliveredOnce(s: State, c: nat) {
    Count(s.execs, c) == if c < |s.tasks| && s.tasks[c].awaited && !StillPending(s, c) then 1 else 0
  }

  ghost predicate ExitKnown(s: State, c: nat) {
    c in s.exits ==> c < |s.tasks|
  }

  /** What SYS_EXEC has returned is what its own child passed to SYS_EXIT. */
  ghost predicate ReturnOk(s: State, k: nat) {
    k < |s.execs| ==>
      var r := s.execs[k];
      && r.child < |s.tasks| && s.tasks[r.child].parent == Some(r.parent) && s.tasks[r.child].awaited
      && r.child in s.exits && r.value == s.exits[r.child]
  }

  /** What SYS_GETS has returned is the length of the line typed for it. */
  ghost predicate LineOk(s: State, k: nat) {
    k < |s.lines| ==> s.lines[k].value == |s.lines[k].line| && |s.lines[k].line| < BUFFER_SIZE
  }

  /** Who is registered as reader is blocked reading, and its line fits. */
  ghost predicate ReaderOk(s: State) {
    s.reader.Reader? ==>
      && s.reader.task < |s.tasks| && s.tasks[s.reader.task].state == WaitingForKeyboard
      && s.reader.size > 0 && |s.reader.line| <= Room(s.reader.size)
  }

  ghost predicate TypedOk(s: State, i: nat) {
    i < |s.tasks| && s.tasks[i].pending.Typed? ==> |s.tasks[i].pending.line| < BUFFER_SIZE
  }

  /** All but the state of the current task. */
  ghost predicate Settled(s: State) {
    && s.current < |s.tasks| && s.used <= Pmm.Frames(s.total) && ReaderOk(s)
    && (forall i: nat :: TaskOk(s, i)) && (forall i: nat :: TypedOk(s, i))
    && (forall i: nat, j: nat :: BlocksDiffer(s, i, j))
    && (forall c: nat :: DeliveredOnce(s, c)) && (forall c: nat :: ExitKnown(s, c))
    && (forall k: nat :: ReturnOk(s, k)) && (forall k: nat :: LineOk(s, k))
  }

  /** The invariant. Outside halt the current task, and no other, is running. */
  ghost predicate Safe(s: State) {
    Settled(s) && (!s.halted ==> s.tasks[s.current].state == Running)
  }

  /** What an allocation of frames can do: take free ones. */
  ghost predicate GoodCreation(s: State, made: Creation) {
    && s.used <= made.used && made.used <= Pmm.Frames(s.total)
    && (made.Created? ==> made.block !in s.used && made.block in made.used)
  }

  ghost predicate GoodEvent(s: State, e: Event) {
    match e
    case Exec(path, made) => GoodCreation(s, made)
    case CreateTask(made) => GoodCreation(s, made)
    case Spawn(made) => GoodCreation(s, made)
    case _ => true
  }

  // ----- schedule keeps it -----

  lemma CountAppend(execs: seq<ExecReturn>, r: ExecReturn, c: nat)
    ensures Count(execs + [r], c) == Count(execs, c) + if r.child == c then 1 else 0
  {
    assert (execs + [r])[..|execs|] == execs;
  }

  lemma DispatchAt(s: State, j: nat, i: nat)
    requires s.current < |s.tasks| && j < |s.tasks| && i < |s.tasks|
    ensures Dispatch(s, j).tasks[i] ==
            if i == j then Resumed(s.tasks[j])
            else if i == s.current then Preempted(s.tasks[i])
            else s.tasks[i]
  {
  }

  lemma DispatchTask(s: State, j: nat, i: nat)
    requires Settled(s) && j < |s.tasks| && Runnable(s.tasks[j])
    ensures TaskOk(Dispatch(s, j), i)
  {
    var r := Dispatch(s, j);
    assert TaskOk(s, i) && TaskOk(s, j);
    if i < |s.tasks| {
      DispatchAt(s, j, i);
      if s.tasks[i].pending.InExec? && s.tasks[i].pending.child < |s.tasks| {
        DispatchAt(s, j, s.tasks[i].pending.child);
      }
    }
  }

  lemma DispatchDelivers(s: State, j: nat, c: nat)
    requires Settled(s) && j < |s.tasks| && Runnable(s.tasks[j])
    ensures DeliveredOnce(Dispatch(s, j), c)
  {
    var r := Dispatch(s, j);
    var p := s.tasks[j].pending;
    assert DeliveredOnce(s, c) && TaskOk(s, j) && TaskOk(s, c);
    if c < |s.tasks| {
      DispatchAt(s, j, c);
      if s.tasks[c].parent.Some? {
        DispatchAt(s, j, s.tasks[c].parent.value);
      }
    }
    if p.InExec? {
      CountAppend(s.execs, ExecReturn(j, p.child, s.tasks[j].exitStatus), c);
    } else {
      assert r.execs == s.execs;
    }
  }

  lemma DispatchReturn(s: State, j: nat, k: nat)
    requires Settled(s) && j < |s.tasks| && Runnable(s.tasks[j])
    ensures ReturnOk(Dispatch(s, j), k)
  {
    assert ReturnOk(s, k) && TaskOk(s, j);
    var r := Dispatch(s, j);
    if k < |r.execs| && r.execs[k].child < |s.tasks| {
      DispatchAt(s, j, r.execs[k].child);
    }
  }

  lemma DispatchLine(s: State, j: nat, k: nat)
    requires Settled(s) && j < |s.tasks| && Runnable(s.tasks[j])
    ensures LineOk(Dispatch(s, j), k)
  {
    assert LineOk(s, k) && TaskOk(s, j) && TypedOk(s, j);
  }

  lemma DispatchKeeps(s: State, j: nat)
    requires Settled(s) && j < |s.tasks| && Runnable(s.tasks[j])
    ensures Safe(Dispatch(s, j))
  {
    var r := Dispatch(s, j);
    forall i: nat
      ensures TaskOk(r, i) && TypedOk(r, i)
    {
      DispatchTask(s, j, i);
      assert TypedOk(s, i);
      if i < |s.tasks| { DispatchAt(s, j, i); }
    }
    forall c: nat
      ensures DeliveredOnce(r, c) && ExitKnown(r, c)
    {
      DispatchDelivers(s, j, c);
      assert ExitKnown(s, c);
    }
    forall k: nat
      ensures ReturnOk(r, k) && LineOk(r, k)
    {
      DispatchReturn(s, j, k);
      DispatchLine(s, j, k);
    }
    forall i: nat, k: nat
      ensures BlocksDiffer(r, i, k)
    {
      assert BlocksDiffer(s, i, k);
      if i < k < |s.tasks| { DispatchAt(s, j, i); DispatchAt(s, j, k); }
    }
  }

  lemma ScheduleKeeps(s: State)
    requires Settled(s) && s.tasks[s.current].state != Ready
    ensures Safe(Schedule(s))
  {
    ChosenIsNearest(s.tasks, s.current);
    var r := Chosen(s.tasks, s.current);
    if r.Some? {
      DispatchKeeps(s, r.value);
    } else {
      HaltedIsSettled(s);
    }
  }

  /** What no step but a dispatch changes about an old task. */
  ghost predicate SameLinks(s: State, r: State, i: nat) {
    i < |s.tasks| ==>
      && i < |r.tasks|
      && r.tasks[i].parent == s.tasks[i].parent && r.tasks[i].awaited == s.tasks[i].awaited
      && r.tasks[i].block == s.tasks[i].block
      && (r.tasks[i].pending == s.tasks[i].pending ||
          (!s.tasks[i].pending.InExec? && (r.tasks[i].pending.InExec? ==> r.tasks[i].pending.child >= |s.tasks|)))
  }

  ghost predicate NewTaskOk(s: State, r: State, i: nat) {
    |s.tasks| <= i < |r.tasks| ==> r.tasks[i].block !in s.used && (r.tasks[i].awaited ==> StillPending(r, i))
  }

  /** The records stay right while nothing is returned to anyone. */
  lemma RecordsKept(s: State, r: State)
    requires Settled(s) && |s.tasks| <= |r.tasks| <= |s.tasks| + 1
    requires (forall i: nat :: SameLinks(s, r, i)) && (forall i: nat :: NewTaskOk(s, r, i))
    requires r.execs == s.execs && r.lines == s.lines
    requires forall c | c in s.exits :: c in r.exits && r.exits[c] == s.exits[c]
    ensures forall c: nat :: DeliveredOnce(r, c)
    ensures forall k: nat :: ReturnOk(r, k)
    ensures forall k: nat :: LineOk(r, k)
    ensures forall i: nat, j: nat :: BlocksDiffer(r, i, j)
  {
    forall c: nat
      ensures DeliveredOnce(r, c)
    {
      DeliveryKept(s, r, c);
    }
    forall k: nat
      ensures ReturnOk(r, k) && LineOk(r, k)
    {
      assert ReturnOk(s, k) && LineOk(s, k);
      if k < |s.execs| { assert SameLinks(s, r, s.execs[k].child); }
    }
    forall i: nat, j: nat
      ensures BlocksDiffer(r, i, j)
    {
      assert BlocksDiffer(s, i, j) && SameLinks(s, r, i) && SameLinks(s, r, j) && NewTaskOk(s, r, j) && TaskOk(s, i);
    }
  }

  lemma DeliveryKept(s: State, r: State, c: nat)
    requires Settled(s) && |s.tasks| <= |r.tasks| && SameLinks(s, r, c) && NewTaskOk(s, r, c) && r.execs == s.execs
    requires forall i: nat :: SameLinks(s, r, i)
    ensures DeliveredOnce(r, c)
  {
    assert DeliveredOnce(s, c) && TaskOk(s, c);
    if c < |s.tasks| && s.tasks[c].parent.Some? {
      assert SameLinks(s, r, s.tasks[c].parent.value);
    }
  }

  lemma HaltedIsSettled(s: State)
    requires Settled(s)
    ensures Settled(s.(halted := true))
  {
    var r := s.(halted := true);
    forall i: nat
      ensures TaskOk(r, i) && TypedOk(r, i) && ExitKnown(r, i) && SameLinks(s, r, i)
    {
      assert TaskOk(s, i) && TypedOk(s, i) && ExitKnown(s, i);
    }
    assert forall i: nat :: NewTaskOk(s, r, i);
    RecordsKept(s, r);
  }

  // ----- the steps keep it -----

  lemma EaxKeeps(s: State, v: Word32)
    requires Safe(s)
    ensures Safe(SetEax(s, v))
  {
    var r := SetEax(s, v);
    forall i: nat
      ensures TaskOk(r, i) && TypedOk(r, i) && ExitKnown(r, i) && SameLinks(s, r, i) && NewTaskOk(s, r, i)
    {
      assert TaskOk(s, i) && TypedOk(s, i) && ExitKnown(s, i);
    }
    RecordsKept(s, r);
  }

  lemma ReadingKeeps(s: State, size: nat)
    requires Safe(s) && !s.halted && size > 0
    ensures Settled(Reading(s, size))
  {
    var r := Reading(s, size);
    assert TaskOk(s, s.current);
    forall i: nat
      ensures TaskOk(r, i) && TypedOk(r, i) && ExitKnown(r, i) && SameLinks(s, r, i) && NewTaskOk(s, r, i)
    {
      assert TaskOk(s, i) && TypedOk(s, i) && ExitKnown(s, i);
    }
    RecordsKept(s, r);
  }

  lemma EditKeeps(s: State, line: seq<Char>)
    requires Safe(s) && s.reader.Reader? && |line| <= Room(s.reader.size)
    ensures Safe(s.(reader := s.reader.(line := line)))
  {
    var r := s.(reader := s.reader.(line := line));
    forall i: nat
      ensures TaskOk(r, i) && TypedOk(r, i) && ExitKnown(r, i) && SameLinks(s, r, i) && NewTaskOk(s, r, i)
    {
      assert TaskOk(s, i) && TypedOk(s, i) && ExitKnown(s, i);
    }
    RecordsKept(s, r);
  }

  lemma EnterKeeps(s: State)
    requires Safe(s) && s.reader.Reader?
    ensures Safe(KeyPress(s, NEWLINE))
  {
    hide DeliveredOnce, ReturnOk, LineOk, BlocksDiffer;
    var r := KeyPress(s, NEWLINE);
    assert TaskOk(s, s.reader.task);
    forall i: nat
      ensures TaskOk(r, i) && TypedOk(r, i) && ExitKnown(r, i) && SameLinks(s, r, i) && NewTaskOk(s, r, i)
    {
      assert TaskOk(s, i) && TypedOk(s, i) && ExitKnown(s, i);
    }
    RecordsKept(s, r);
  }

  lemma KeyKeeps(s: State, c: Char)
    requires Safe(s)
    ensures Safe(KeyPress(s, c))
  {
    if s.reader.Reader? {
      if c == NEWLINE {
        EnterKeeps(s);
      } else {
        EditKeeps(s, Edit(s.reader.line, s.reader.size, c));
      }
    }
  }

  lemma AddKeeps(s: State, made: Creation, parent: Option<nat>)
    requires Safe(s) && GoodCreation(s, made) && (parent.Some? ==> parent.value < |s.tasks|)
    ensures Safe(AddTask(s, made, parent, false))
  {
    var r := AddTask(s, made, parent, false);
    forall i: nat
      ensures TaskOk(r, i) && TypedOk(r, i) && ExitKnown(r, i) && SameLinks(s, r, i) && NewTaskOk(s, r, i)
    {
      assert TaskOk(s, i) && TypedOk(s, i) && ExitKnown(s, i);
    }
    RecordsKept(s, r);
  }

  lemma AwaitingKeeps(s: State, made: Creation)
    requires Safe(s) && !s.halted && GoodCreation(s, made) && made.Created?
    ensures Settled(Awaiting(s, made))
  {
    var r := Awaiting(s, made);
    assert TaskOk(s, s.current);
    forall i: nat
      ensures TaskOk(r, i) && TypedOk(r, i) && ExitKnown(r, i) && SameLinks(s, r, i) && NewTaskOk(s, r, i)
    {
      assert TaskOk(s, i) && TypedOk(s, i) && ExitKnown(s, i) && ExitKnown(s, |s.tasks|);
    }
    RecordsKept(s, r);
  }

  lemma EndedTask(s: State, status: Word32, i: nat)
    requires Safe(s) && !s.halted
    ensures TaskOk(Ended(s, status), i)
  {
    assert TaskOk(s, i) && TaskOk(s, s.current);
    if Waiter(s).Some? {
      assert TaskOk(s, Waiter(s).value);
    }
  }

  lemma EndedKeeps(s: State, status: Word32)
    requires Safe(s) && !s.halted
    ensures Settled(Ended(s, status))
  {
    var r := Ended(s, status);
    assert TaskOk(s, s.current);
    if s.reader.Reader? {
      assert TaskOk(s, s.reader.task);
    }
    forall i: nat
      ensures TaskOk(r, i) && TypedOk(r, i) && ExitKnown(r, i) && SameLinks(s, r, i) && NewTaskOk(s, r, i)
    {
      EndedTask(s, status, i);
      assert TypedOk(s, i) && ExitKnown(s, i);
    }
    RecordsKept(s, r);
  }

  lemma ReserveKeeps(s: State, used: set<nat>)
    requires Safe(s) && s.used <= used && used <= Pmm.Frames(s.total)
    ensures Safe(s.(used := used))
  {
    AddKeeps(s, NotCreated(used), None);
  }

  /** Every step keeps the invariant. */
  lemma StepKeeps(s: State, e: Event)
    requires Safe(s) && GoodEvent(s, e)
    ensures Safe(Step(s, e))
  {
    if !s.halted {
      match e
      case Tick => ScheduleKeeps(s);
      case Key(c) => KeyKeeps(s, c);
      case Putc => EaxKeeps(s, 0);
      case Gets(buffer, size) =>
        if !buffer || size == 0 {
          EaxKeeps(s, FAILURE);
        } else {
          ReadingKeeps(s, size);
          ScheduleKeeps(Reading(s, size));
        }
      case Exec(path, made) =>
        if !path {
          EaxKeeps(s, FAILURE);
        } else if made.NotCreated? {
          ReserveKeeps(s, made.used);
          EaxKeeps(s.(used := made.used), FAILURE);
        } else {
          AwaitingKeeps(s, made);
          ScheduleKeeps(Awaiting(s, made));
        }
      case Exit(status) =>
        EndedKeeps(s, status);
        ScheduleKeeps(Ended(s, status));
      case CreateTask(made) => AddKeeps(s, made, None);
      case Spawn(made) => AddKeeps(s, made, Some(s.current));
      case OtherCall => EaxKeeps(s, FAILURE);
    }
  }
}
