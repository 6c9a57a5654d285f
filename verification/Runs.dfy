/** Properties of whole runs of the task machine. */
module Runs {
  import opened Options
  import opened Words
  import opened Console
  import opened Protocol
  import opened Safety
  import Pmm

  /** Every creation in the run takes frames that are free at that point. */
  ghost predicate GoodRun(s: State, events: seq<Event>)
    requires s.current < |s.tasks|
  {
    events == [] ||
    (GoodRun(s, events[..|events| - 1]) && GoodEvent(Run(s, events[..|events| - 1]), events[|events| - 1]))
  }

  lemma BootedIsSafe(used: set<nat>, total: nat, block: nat)
    requires used <= Pmm.Frames(total) && block in used
    ensures Safe(Booted(used, total, block))
  {
    var s := Booted(used, total, block);
    forall i: nat
      ensures TaskOk(s, i) && TypedOk(s, i) && DeliveredOnce(s, i) && ReturnOk(s, i) && LineOk(s, i)
    {
    }
  }

  /** The invariant holds in every reachable state. */
  lemma {:induction false} AlwaysSafe(s: State, events: seq<Event>)
    requires Safe(s) && GoodRun(s, events)
    ensures Safe(Run(s, events))
  {
    if events != [] {
      var before := events[..|events| - 1];
      AlwaysSafe(s, before);
      StepKeeps(Run(s, before), events[|events| - 1]);
    }
  }

  // ----- what the invariant says -----

  /** Outside halt exactly one task is running, the current one. */
  lemma OneRunning(s: State, i: nat)
    requires Safe(s) && !s.halted && i < |s.tasks|
    ensures s.tasks[i].state == Running <==> i == s.current
  {
    assert TaskOk(s, i);
  }

  /** A task that waits for a child waits for the PID of a task of its own that has not exited. */
  lemma WaitsForALiveChild(s: State, i: nat)
    requires Safe(s) && i < |s.tasks| && s.tasks[i].state == WaitingForChild
    ensures 0 < s.tasks[i].waitingOn <= |s.tasks|
    ensures var c := s.tasks[i].waitingOn - 1; s.tasks[c].parent == Some(i) && s.tasks[c].state != Terminated
  {
    assert TaskOk(s, i);
    assert TaskOk(s, s.tasks[i].waitingOn - 1);
  }

  lemma {:induction false} CountPositive(execs: seq<ExecReturn>, c: nat, k: nat)
    requires k < |execs| && execs[k].child == c
    ensures Count(execs, c) >= 1
  {
    var before := execs[..|execs| - 1];
    if k < |before| {
      CountPositive(before, c, k);
    }
  }

  lemma {:induction false} CountTwice(execs: seq<ExecReturn>, c: nat, k: nat, l: nat)
    requires k < l < |execs| && execs[k].child == c && execs[l].child == c
    ensures Count(execs, c) >= 2
  {
    var before := execs[..|execs| - 1];
    if l < |before| {
      CountTwice(before, c, k, l);
    } else {
      CountPositive(before, c, k);
    }
  }

  /** In every run, what SYS_EXEC returns is the value its own child passed to SYS_EXIT, and it returns
      at most once for each child. */
  lemma ExecReturnsOwnChildsStatus(s: State, events: seq<Event>, k: nat)
    requires Safe(s) && GoodRun(s, events) && k < |Run(s, events).execs|
    ensures var t, r := Run(s, events), Run(s, events).execs[k];
      && r.child < |t.tasks| && t.tasks[r.child].parent == Some(r.parent)
      && r.child in t.exits && r.value == t.exits[r.child]
      && forall l: nat :: l < |t.execs| && t.execs[l].child == r.child ==> l == k
  {
    AlwaysSafe(s, events);
    var t := Run(s, events);
    var r := t.execs[k];
    assert ReturnOk(t, k) && DeliveredOnce(t, r.child);
    forall l: nat | l < |t.execs| && t.execs[l].child == r.child
      ensures l == k
    {
      if l < k {
        CountTwice(t.execs, r.child, l, k);
      } else if k < l {
        CountTwice(t.execs, r.child, k, l);
      }
    }
  }

  /** When a child of SYS_EXEC has exited, its parent has either come back from that call, once, or is
      ready to, with the child's status in hand. */
  lemma ExitIsDelivered(s: State, c: nat)
    requires Safe(s) && c < |s.tasks| && s.tasks[c].awaited && s.tasks[c].state == Terminated
    ensures s.tasks[c].parent.Some? && s.tasks[c].parent.value < |s.tasks| && c in s.exits
    ensures var p := s.tasks[s.tasks[c].parent.value];
      if p.pending == InExec(c) then Count(s.execs, c) == 0 && p.state == Ready && p.exitStatus == s.exits[c]
      else Count(s.execs, c) == 1
  {
    assert TaskOk(s, c) && DeliveredOnce(s, c);
    assert TaskOk(s, s.tasks[c].parent.value);
  }

  /** Statuses once passed to SYS_EXIT never change, so no other task's exit can alter what a woken
      parent is given. */
  lemma ExitsStay(s: State, e: Event, c: nat)
    requires Safe(s) && c in s.exits
    ensures c in Step(s, e).exits && Step(s, e).exits[c] == s.exits[c]
  {
    assert TaskOk(s, s.current);
  }

  lemma {:induction false} ExitsStayForever(s: State, events: seq<Event>, c: nat)
    requires Safe(s) && GoodRun(s, events) && c in s.exits
    ensures c in Run(s, events).exits && Run(s, events).exits[c] == s.exits[c]
  {
    if events != [] {
      var before := events[..|events| - 1];
      ExitsStayForever(s, before, c);
      AlwaysSafe(s, before);
      ExitsStay(Run(s, before), events[|events| - 1], c);
    }
  }

  // ----- PIDs -----

  ghost function BlocksOf(s: State, n: nat): set<nat>
    requires n <= |s.tasks|
    decreases n
  {
    if n == 0 then {} else BlocksOf(s, n - 1) + {s.tasks[n - 1].block}
  }

  lemma {:induction false} BlockIsNew(s: State, n: nat, i: nat)
    requires Settled(s) && n <= i < |s.tasks|
    ensures s.tasks[i].block !in BlocksOf(s, n)
    decreases n
  {
    if n > 0 {
      BlockIsNew(s, n - 1, i);
      assert BlocksDiffer(s, n - 1, i);
    }
  }

  lemma {:induction false} BlocksCount(s: State, n: nat)
    requires Settled(s) && n <= |s.tasks|
    ensures |BlocksOf(s, n)| == n && BlocksOf(s, n) <= s.used
    decreases n
  {
    if n > 0 {
      BlocksCount(s, n - 1);
      BlockIsNew(s, n - 1, n - 1);
      assert TaskOk(s, n - 1);
    }
  }

  lemma StepLeavesTotal(s: State, e: Event)
    requires s.current < |s.tasks|
    ensures Step(s, e).total == s.total
  {
  }

  lemma {:induction false} TotalStays(s: State, events: seq<Event>)
    requires s.current < |s.tasks|
    ensures Run(s, events).total == s.total
  {
    hide Step;
    if events != [] {
      var before := events[..|events| - 1];
      TotalStays(s, before);
      StepLeavesTotal(Run(s, before), events[|events| - 1]);
    }
  }

  /** The next PID is at most one more than the number of frames: ids are issued on successful creation
      only, and each task keeps a frame of its own. So PIDs neither collide nor turn negative. */
  lemma PidsAreBounded(s: State, events: seq<Event>)
    requires Safe(s) && GoodRun(s, events)
    ensures |Run(s, events).tasks| <= s.total
  {
    AlwaysSafe(s, events);
    TotalStays(s, events);
    var t := Run(s, events);
    BlocksCount(t, |t.tasks|);
    Pmm.SubsetSize(BlocksOf(t, |t.tasks|), Pmm.Frames(t.total));
  }

  // ----- a second reader -----

  /** A task that called SYS_GETS while another was reading is blocked, and is not the reader. */
  predicate LockedOut(s: State, i: nat) {
    && i < |s.tasks| && s.tasks[i].state == WaitingForKeyboard
    && (s.reader.Reader? ==> s.reader.task != i)
  }

  lemma ScheduleLeavesLockedOut(s: State, i: nat)
    requires s.current < |s.tasks| && LockedOut(s, i)
    ensures LockedOut(Schedule(s), i)
  {
    ChosenIsNearest(s.tasks, s.current);
    var r := Chosen(s.tasks, s.current);
    if r.Some? {
      DispatchAt(s, r.value, i);
    }
  }

  lemma StepLeavesLockedOut(s: State, e: Event, i: nat)
    requires Safe(s) && LockedOut(s, i)
    ensures LockedOut(Step(s, e), i)
  {
    hide Schedule, DeliveredOnce, ReturnOk, LineOk, BlocksDiffer;
    assert TaskOk(s, s.current) && TaskOk(s, i);
    if !s.halted {
      match e
      case Tick => ScheduleLeavesLockedOut(s, i);
      case Gets(buffer, size) => if buffer && size > 0 { ScheduleLeavesLockedOut(Reading(s, size), i); }
      case Exec(path, made) => if path && made.Created? { ScheduleLeavesLockedOut(Awaiting(s, made), i); }
      case Exit(status) => ScheduleLeavesLockedOut(Ended(s, status), i);
      case _ =>
    }
  }

  /** Such a task is never woken again. */
  lemma {:induction false} LockedOutForever(s: State, events: seq<Event>, i: nat)
    requires Safe(s) && GoodRun(s, events) && LockedOut(s, i)
    ensures LockedOut(Run(s, events), i)
  {
    if events != [] {
      var before := events[..|events| - 1];
      LockedOutForever(s, before, i);
      AlwaysSafe(s, before);
      StepLeavesLockedOut(Run(s, before), events[|events| - 1], i);
    }
  }

  // ----- halting -----

  /** `schedule` halts the processor exactly when no task is runnable. */
  lemma HaltsExactlyWhenNoneRunnable(s: State)
    requires s.current < |s.tasks| && !s.halted
    ensures Schedule(s).halted <==> forall k: nat :: k < |s.tasks| ==> !Runnable(s.tasks[k])
  {
    ChosenIsNearest(s.tasks, s.current);
  }

  /** The boot task gives up the processor for good. */
  predicate BootBlocks(s: State, e: Event)
  {
    s.current == 0 &&
    ((e.Gets? && e.buffer && e.size > 0) || (e.Exec? && e.path && e.made.Created?) || e.Exit?)
  }

  predicate BootRunnable(s: State) {
    !s.halted && |s.tasks| > 0 && Runnable(s.tasks[0])
  }

  lemma DispatchLeavesRunnable(s: State, j: nat, i: nat)
    requires s.current < |s.tasks| && j < |s.tasks| && i < |s.tasks| && Runnable(s.tasks[i])
    ensures Runnable(Dispatch(s, j).tasks[i])
  {
    DispatchAt(s, j, i);
  }

  lemma ScheduleKeepsBoot(s: State)
    requires s.current < |s.tasks| && BootRunnable(s)
    ensures BootRunnable(Schedule(s))
  {
    HaltsExactlyWhenNoneRunnable(s);
    var r := Chosen(s.tasks, s.current);
    if r.Some? {
      DispatchLeavesRunnable(s, r.value, 0);
    }
  }

  lemma StepKeepsBoot(s: State, e: Event)
    requires Safe(s) && BootRunnable(s) && !BootBlocks(s, e)
    ensures BootRunnable(Step(s, e))
  {
    hide Schedule, DeliveredOnce, ReturnOk, LineOk, BlocksDiffer, TaskOk;
    match e
    case Tick => ScheduleKeepsBoot(s);
    case Gets(buffer, size) => if buffer && size > 0 { ScheduleKeepsBoot(Reading(s, size)); }
    case Exec(path, made) => if path && made.Created? { ScheduleKeepsBoot(Awaiting(s, made)); }
    case Exit(status) => ScheduleKeepsBoot(Ended(s, status));
    case _ =>
  }

  ghost predicate BootStays(s: State, events: seq<Event>)
    requires s.current < |s.tasks|
  {
    events == [] ||
    (BootStays(s, events[..|events| - 1]) && !BootBlocks(Run(s, events[..|events| - 1]), events[|events| - 1]))
  }

  /** While the boot task does not block, the machine never halts. */
  lemma {:induction false} NeverHaltsWhileBootStays(s: State, events: seq<Event>)
    requires Safe(s) && BootRunnable(s) && GoodRun(s, events) && BootStays(s, events)
    ensures !Run(s, events).halted && BootRunnable(Run(s, events))
  {
    if events != [] {
      var before := events[..|events| - 1];
      NeverHaltsWhileBootStays(s, before);
      AlwaysSafe(s, before);
      StepKeepsBoot(Run(s, before), events[|events| - 1]);
    }
  }

  // ----- bounded wait -----

  /** How often the step calls `schedule`. */
  function Calls(e: Event): nat {
    if e.Tick? || e.Exit? || (e.Gets? && e.buffer && e.size > 0) || (e.Exec? && e.path && e.made.Created?) then 1 else 0
  }

  predicate Creates(e: Event) {
    (e.Exec? && e.path && e.made.Created?) || (e.CreateTask? && e.made.Created?) || (e.Spawn? && e.made.Created?)
  }

  /** How many tasks the step inserts on the way from the current task to task `t`. */
  function Inserts(s: State, e: Event, t: nat): nat {
    if Creates(e) && s.current < t then 1 else 0
  }

  function AllCalls(events: seq<Event>): nat {
    if events == [] then 0 else AllCalls(events[..|events| - 1]) + Calls(events[|events| - 1])
  }

  function AllInserts(s: State, events: seq<Event>, t: nat): nat
    requires s.current < |s.tasks|
  {
    if events == [] then 0
    else AllInserts(s, events[..|events| - 1], t) + Inserts(Run(s, events[..|events| - 1]), events[|events| - 1], t)
  }

  lemma DistanceSplits(n: nat, a: nat, b: nat, c: nat)
    requires a < n && b < n && c < n && Distance(n, a, b) < Distance(n, a, c)
    ensures Distance(n, b, c) == Distance(n, a, c) - Distance(n, a, b)
  {
  }

  /** Task `t` is ready and at most `d` `schedule` calls away, or it is running. */
  predicate Near(s: State, t: nat, d: int) {
    && !s.halted && s.current < |s.tasks| && t < |s.tasks|
    && (t == s.current || (s.tasks[t].state == Ready && Distance(|s.tasks|, s.current, t) <= d))
  }

  /** One `schedule` call brings a ready task one step nearer at least. */
  lemma ScheduleBringsNearer(s: State, t: nat, d: int)
    requires !s.halted && s.current < |s.tasks| && t < |s.tasks| && t != s.current
    requires s.tasks[t].state == Ready && Distance(|s.tasks|, s.current, t) <= d
    ensures Near(Schedule(s), t, d - 1)
  {
    var n := |s.tasks|;
    ChosenIsNearest(s.tasks, s.current);
    var j := Chosen(s.tasks, s.current).value;
    assert NotCloser(s.tasks, s.current, Distance(n, s.current, j), t);
    if j != t {
      assert Distance(n, s.current, j) < Distance(n, s.current, t);
      DistanceSplits(n, s.current, j, t);
      DispatchAt(s, j, t);
    }
  }

  /** Whatever a step does, a ready task comes nearer by the number of `schedule` calls, but for
      tasks inserted on the way. */
  lemma StepBringsNearer(s: State, e: Event, t: nat, d: int)
    requires Safe(s) && Near(s, t, d) && t != s.current
    ensures Near(Step(s, e), t, d - Calls(e) + Inserts(s, e, t))
  {
    hide Schedule, DeliveredOnce, ReturnOk, LineOk, BlocksDiffer, TypedOk, ExitKnown, ExecPending;
    assert TaskOk(s, s.current) && TaskOk(s, t);
    match e
    case Tick => ScheduleBringsNearer(s, t, d);
    case Gets(buffer, size) => if buffer && size > 0 { ScheduleBringsNearer(Reading(s, size), t, d); }
    case Exec(path, made) =>
      if path && made.Created? { ScheduleBringsNearer(Awaiting(s, made), t, d + Inserts(s, e, t)); }
    case Exit(status) => EndedLeavesReady(s, status, t); ScheduleBringsNearer(Ended(s, status), t, d);
    case _ =>
  }

  lemma EndedLeavesReady(s: State, status: Word32, t: nat)
    requires s.current < |s.tasks| && t < |s.tasks| && t != s.current && s.tasks[t].state == Ready
    ensures Ended(s, status).tasks[t].state == Ready
  {
  }

  /** Task `t` is running after the first `k` events. */
  predicate RunsAfter(s: State, events: seq<Event>, k: nat, t: nat)
    requires s.current < |s.tasks| && k <= |events|
  {
    Run(s, events[..k]).current == t
  }

  ghost predicate HasRun(s: State, events: seq<Event>, t: nat)
    requires s.current < |s.tasks|
  {
    exists k: nat :: k <= |events| && RunsAfter(s, events, k, t)
  }

  lemma HasRunLonger(s: State, events: seq<Event>, t: nat)
    requires s.current < |s.tasks| && events != [] && HasRun(s, events[..|events| - 1], t)
    ensures HasRun(s, events, t)
  {
    var before := events[..|events| - 1];
    var k: nat :| k <= |before| && RunsAfter(s, before, k, t);
    assert before[..k] == events[..k];
    assert RunsAfter(s, events, k, t);
  }

  /** How far away a task that has not run yet can still be after a run. */
  function Budget(s: State, events: seq<Event>, t: nat): int
    requires s.current < |s.tasks| && t < |s.tasks|
  {
    if events == [] then Distance(|s.tasks|, s.current, t)
    else
      var before, e := events[..|events| - 1], events[|events| - 1];
      Budget(s, before, t) - Calls(e) + Inserts(Run(s, before), e, t)
  }

  lemma {:induction false} BudgetIs(s: State, events: seq<Event>, t: nat)
    requires s.current < |s.tasks| && t < |s.tasks|
    ensures Budget(s, events, t) == Distance(|s.tasks|, s.current, t) - AllCalls(events) + AllInserts(s, events, t)
  {
    if events != [] {
      BudgetIs(s, events[..|events| - 1], t);
    }
  }

  lemma {:induction false} ComesNearer(s: State, events: seq<Event>, t: nat)
    requires Safe(s) && GoodRun(s, events) && !s.halted && t < |s.tasks| && s.tasks[t].state == Ready
    ensures HasRun(s, events, t) || Near(Run(s, events), t, Budget(s, events, t))
  {
    if events != [] {
      var before, e := events[..|events| - 1], events[|events| - 1];
      ComesNearer(s, before, t);
      if HasRun(s, before, t) {
        HasRunLonger(s, events, t);
      } else {
        AlwaysSafe(s, before);
        NotRunYet(s, before, t);
        StepBringsNearer(Run(s, before), e, t, Budget(s, before, t));
      }
    }
  }

  lemma NotRunYet(s: State, events: seq<Event>, t: nat)
    requires s.current < |s.tasks| && !HasRun(s, events, t)
    ensures Run(s, events).current != t
  {
    assert events[..|events|] == events;
    assert !RunsAfter(s, events, |events|, t);
  }

  /** A ready task runs within as many `schedule` calls as its distance in the ring, plus one for
      each task inserted on the way, whatever wakes, blocks or exits meanwhile. */
  lemma BoundedWait(s: State, events: seq<Event>, t: nat)
    requires Safe(s) && GoodRun(s, events) && !s.halted && t < |s.tasks| && s.tasks[t].state == Ready
    requires AllCalls(events) >= Distance(|s.tasks|, s.current, t) + AllInserts(s, events, t)
    ensures exists k: nat :: k <= |events| && Run(s, events[..k]).current == t
  {
    ComesNearer(s, events, t);
    BudgetIs(s, events, t);
    if HasRun(s, events, t) {
      var k: nat :| k <= |events| && RunsAfter(s, events, k, t);
    } else {
      NotRunYet(s, events, t);
    }
  }
}
