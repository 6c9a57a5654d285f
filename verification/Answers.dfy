/** What a task finds in EAX: at once, when a call is answered without blocking, or when it goes on behind
    the `schedule` of SYS_EXEC or SYS_GETS. */
module Answers {
  import opened Options
  import opened Words
  import opened Protocol
  import opened Safety
  import opened Runs
  import opened Lines
  import C = Console

  // ----- calls that are answered at once -----

  /** Only EAX of the current task has changed, and the frames in use. */
  ghost predicate AnsweredAtOnce(s: State, t: State, v: Word32) {
    && s.current < |s.tasks| && t.current == s.current
    && t.tasks == s.tasks[s.current := s.tasks[s.current].(eax := v)]
    && t.tasks[t.current].eax == v
    && t == s.(tasks := t.tasks, used := t.used)
  }

  /** -1 for an unknown call, a refused SYS_GETS and a refused or failed SYS_EXEC; 0 for SYS_PUTC. */
  lemma ImmediateAnswers(s: State, e: Event)
    requires s.current < |s.tasks| && !s.halted
    ensures e.OtherCall? ==> AnsweredAtOnce(s, Step(s, e), 0xFFFF_FFFF)
    ensures e.Gets? && (!e.buffer || e.size == 0) ==> AnsweredAtOnce(s, Step(s, e), 0xFFFF_FFFF)
    ensures e.Exec? && (!e.path || e.made.NotCreated?) ==> AnsweredAtOnce(s, Step(s, e), 0xFFFF_FFFF)
    ensures e.Putc? ==> AnsweredAtOnce(s, Step(s, e), 0)
  {
  }

  lemma ScheduleKeepsEax(s: State, i: nat)
    requires s.current < |s.tasks| && i < |s.tasks|
    ensures var t := Schedule(s);
            (i != t.current || s.tasks[i].pending.Nothing?) ==> t.tasks[i].eax == s.tasks[i].eax
  {
    hide Dispatch, Chosen;
    var r := Chosen(s.tasks, s.current);
    if r.Some? && r.value < |s.tasks| {
      DispatchAt(s, r.value, i);
      DispatchCurrent(s, r.value);
    }
  }

  lemma DispatchCurrent(s: State, j: nat)
    requires s.current < |s.tasks| && j < |s.tasks|
    ensures Dispatch(s, j).current == j && |Dispatch(s, j).tasks| == |s.tasks|
  {
  }

  /** No step changes EAX of a task that is not the current one afterwards; nor that of a task that neither
      makes a call answered at once nor comes back from a call. */
  lemma OthersKeepEax(s: State, e: Event, i: nat)
    requires s.current < |s.tasks| && i < |s.tasks|
    ensures |s.tasks| <= |Step(s, e).tasks|
    ensures i != Step(s, e).current ==> Step(s, e).tasks[i].eax == s.tasks[i].eax
    ensures s.tasks[i].pending.Nothing? && (e.Tick? || e.Key? || e.Exit? || e.CreateTask? || e.Spawn?) ==>
              Step(s, e).tasks[i].eax == s.tasks[i].eax
  {
    hide Schedule;
    if !s.halted {
      match e
      case Tick => ScheduleKeepsEax(s, i);
      case Gets(buffer, size) => if buffer && size > 0 { ScheduleKeepsEax(Reading(s, size), i); }
      case Exec(path, made) => if path && made.Created? { ScheduleKeepsEax(Awaiting(s, made), i); }
      case Exit(status) => ScheduleKeepsEax(Ended(s, status), i);
      case _ =>
    }
  }

  // ----- coming back from SYS_EXEC and SYS_GETS -----

  /** One value has been added to what SYS_EXEC has returned, or none; the task it is for is running then, with
      the value in EAX. */
  ghost predicate ExecInEax(before: seq<ExecReturn>, t: State) {
    t.execs == before ||
    (|t.execs| == |before| + 1 && t.execs[..|before|] == before &&
     var r := t.execs[|before|];
     t.current == r.parent && r.parent < |t.tasks| && t.tasks[r.parent].eax == r.value &&
     t.tasks[r.parent].state == Running)
  }

  /** The same for SYS_GETS. */
  ghost predicate GetsInEax(before: seq<GetsReturn>, t: State) {
    t.lines == before ||
    (|t.lines| == |before| + 1 && t.lines[..|before|] == before &&
     var r := t.lines[|before|];
     t.current == r.task && r.task < |t.tasks| && t.tasks[r.task].eax == r.value &&
     t.tasks[r.task].state == Running)
  }

  lemma DispatchReturns(s: State, j: nat)
    requires s.current < |s.tasks| && j < |s.tasks|
    ensures ExecInEax(s.execs, Dispatch(s, j)) && GetsInEax(s.lines, Dispatch(s, j))
  {
  }

  lemma ScheduleReturns(s: State)
    requires s.current < |s.tasks|
    ensures ExecInEax(s.execs, Schedule(s)) && GetsInEax(s.lines, Schedule(s))
  {
    hide Dispatch, Chosen;
    var r := Chosen(s.tasks, s.current);
    if r.Some? && r.value < |s.tasks| {
      DispatchReturns(s, r.value);
    }
  }

  /** A value is recorded as returned exactly when its task comes back with it in EAX. */
  lemma StepReturns(s: State, e: Event)
    requires s.current < |s.tasks|
    ensures ExecInEax(s.execs, Step(s, e)) && GetsInEax(s.lines, Step(s, e))
  {
    hide Schedule;
    if !s.halted {
      match e
      case Tick => ScheduleReturns(s);
      case Gets(buffer, size) => if buffer && size > 0 { ScheduleReturns(Reading(s, size)); }
      case Exec(path, made) => if path && made.Created? { ScheduleReturns(Awaiting(s, made)); }
      case Exit(status) => ScheduleReturns(Ended(s, status));
      case _ =>
    }
  }

  /** Task `i`, which was blocked with `p` to finish, goes on with the answer: behind SYS_EXEC what its child has
      passed to SYS_EXIT, behind SYS_GETS the length of the line typed for it. */
  ghost predicate GoesOn(t: State, i: nat, p: Pending) {
    && t.current == i && i < |t.tasks|
    && (p.InExec? ==> p.child in t.exits && t.tasks[i].eax == t.exits[p.child])
    && (p.Typed? ==> t.tasks[i].eax == |p.line|)
  }

  lemma ScheduleGoesOn(s: State, i: nat)
    requires Settled(s) && i < |s.tasks| && !s.tasks[i].pending.Nothing?
    ensures var t := Schedule(s); t.tasks[i].pending == s.tasks[i].pending || GoesOn(t, i, s.tasks[i].pending)
  {
    ChosenIsNearest(s.tasks, s.current);
    assert TaskOk(s, i);
    var r := Chosen(s.tasks, s.current);
    if r.Some? {
      DispatchAt(s, r.value, i);
    }
  }

  /** Task `i` is blocked in SYS_EXEC, or a line has been typed for it. */
  ghost predicate Answerable(s: State, i: nat) {
    s.current < |s.tasks| && i < |s.tasks| && (s.tasks[i].pending.InExec? || s.tasks[i].pending.Typed?)
  }

  /** What a call does before its `schedule` leaves it so. */
  ghost predicate Left(s: State, u: State, i: nat)
    requires i < |s.tasks|
  {
    Settled(u) && i < |u.tasks| && u.tasks[i].pending == s.tasks[i].pending
  }

  lemma ReadingLeaves(s: State, size: nat, i: nat)
    requires Answerable(s, i) && Safe(s) && !s.halted && size > 0
    ensures Left(s, Reading(s, size), i)
  {
    hide Settled;
    ReadingKeeps(s, size);
    RunningIsFree(s);
  }

  lemma AwaitingLeaves(s: State, made: Creation, i: nat)
    requires Answerable(s, i) && Safe(s) && !s.halted && GoodCreation(s, made) && made.Created?
    ensures Left(s, Awaiting(s, made), i)
  {
    hide Settled;
    AwaitingKeeps(s, made);
    RunningIsFree(s);
  }

  lemma EndedLeaves(s: State, status: Word32, i: nat)
    requires Answerable(s, i) && Safe(s) && !s.halted
    ensures Left(s, Ended(s, status), i)
  {
    hide Settled;
    EndedKeeps(s, status);
  }

  lemma RunningIsFree(s: State)
    requires Safe(s) && !s.halted
    ensures s.current < |s.tasks| && s.tasks[s.current].pending.Nothing?
  {
    assert TaskOk(s, s.current);
  }

  lemma KeyLeaves(s: State, c: C.Char, i: nat)
    requires Answerable(s, i) && Safe(s)
    ensures KeyPress(s, c).tasks[i].pending == s.tasks[i].pending
  {
    if s.reader.Reader? { assert TaskOk(s, s.reader.task) && TaskOk(s, i); }
  }

  lemma LeftGoesOn(s: State, u: State, i: nat)
    requires Answerable(s, i) && u.current < |u.tasks| && Left(s, u, i)
    ensures |Schedule(u).tasks| == |u.tasks|
    ensures Schedule(u).tasks[i].pending == s.tasks[i].pending || GoesOn(Schedule(u), i, s.tasks[i].pending)
  {
    hide Schedule, GoesOn;
    ScheduleGoesOn(u, i);
  }

  /** A task that was blocked in SYS_EXEC, or for which a line has been typed, stays so or goes on with its
      answer in EAX. */
  lemma StaysOrGoesOn(s: State, e: Event, i: nat)
    requires Answerable(s, i) && Safe(s) && GoodEvent(s, e)
    ensures |s.tasks| <= |Step(s, e).tasks|
    ensures Step(s, e).tasks[i].pending == s.tasks[i].pending || GoesOn(Step(s, e), i, s.tasks[i].pending)
  {
    hide Schedule, GoesOn, Safe, Left, Reading, Awaiting, Ended, KeyPress;
    if !s.halted {
      match e
      case Tick =>
        SafeIsLeft(s, i);
        LeftGoesOn(s, s, i);
      case Key(c) => KeyLeaves(s, c, i);
      case Gets(buffer, size) =>
        if buffer && size > 0 {
          ReadingLeaves(s, size, i);
          LeftGoesOn(s, Reading(s, size), i);
        }
      case Exec(path, made) =>
        if path && made.Created? {
          AwaitingLeaves(s, made, i);
          LeftGoesOn(s, Awaiting(s, made), i);
        }
      case Exit(status) =>
        EndedLeaves(s, status, i);
        LeftGoesOn(s, Ended(s, status), i);
      case _ =>
    }
  }

  lemma SafeIsLeft(s: State, i: nat)
    requires Answerable(s, i) && Safe(s)
    ensures Left(s, s, i)
  {
  }

  // ----- exits -----

  /** What a task has passed to SYS_EXIT is recorded for it, and nothing else is. */
  lemma StepExits(s: State, e: Event)
    requires s.current < |s.tasks|
    ensures Step(s, e).exits == if !s.halted && e.Exit? then s.exits[s.current := e.status] else s.exits
  {
    hide Chosen;
  }

  /** Event `m` is the SYS_EXIT of task `c` with the status. */
  ghost predicate ExitsAt(s: State, events: seq<Event>, m: nat, c: nat, status: Word32)
    requires s.current < |s.tasks|
  {
    && m < |events| && events[m] == Exit(status)
    && !After(s, events, m).halted && After(s, events, m).current == c
  }

  lemma {:induction false} ExitIsEvent(s: State, events: seq<Event>, n: nat, c: nat)
    requires s.current < |s.tasks| && n <= |events| && c !in s.exits && c in After(s, events, n).exits
    ensures exists m: nat :: m < n && ExitsAt(s, events, m, c, After(s, events, n).exits[c])
    decreases n
  {
    hide Step, After;
    AfterAll(s, events);
    if n > 0 {
      var u, e := After(s, events, n - 1), events[n - 1];
      AfterOneMore(s, events, n - 1);
      StepExits(u, e);
      if !u.halted && e.Exit? && u.current == c {
        assert ExitsAt(s, events, n - 1, c, e.status);
      } else {
        ExitIsEvent(s, events, n - 1, c);
        var m: nat :| m < n - 1 && ExitsAt(s, events, m, c, After(s, events, n - 1).exits[c]);
      }
    }
  }

  // ----- over runs -----

  /** Event `n` is the one in which SYS_EXEC returns value `k`: the task it is for is running then, with the value
      in EAX. */
  ghost predicate ExecReturnsAt(s: State, events: seq<Event>, n: nat, k: nat, r: ExecReturn)
    requires s.current < |s.tasks|
  {
    && n < |events| && |After(s, events, n).execs| == k
    && var t := After(s, events, n + 1);
       && |t.execs| == k + 1 && t.execs[k] == r && t.current == r.parent
       && r.parent < |t.tasks| && t.tasks[r.parent].eax == r.value && t.tasks[r.parent].state == Running
  }

  lemma {:induction false} ExecHasEvent(s: State, events: seq<Event>, n: nat, k: nat)
    requires s.current < |s.tasks| && n <= |events| && |s.execs| <= k < |After(s, events, n).execs|
    ensures exists m: nat :: m < n && ExecReturnsAt(s, events, m, k, After(s, events, n).execs[k])
    decreases n
  {
    hide Step, After;
    AfterAll(s, events);
    if n > 0 {
      var u := After(s, events, n - 1);
      AfterOneMore(s, events, n - 1);
      StepReturns(u, events[n - 1]);
      if k < |u.execs| {
        ExecHasEvent(s, events, n - 1, k);
        var m: nat :| m < n - 1 && ExecReturnsAt(s, events, m, k, u.execs[k]);
        assert After(s, events, n).execs[..|u.execs|] == u.execs;
      } else {
        assert ExecReturnsAt(s, events, n - 1, k, After(s, events, n).execs[k]);
      }
    }
  }

  ghost predicate GetsReturnsAt(s: State, events: seq<Event>, n: nat, k: nat, r: GetsReturn)
    requires s.current < |s.tasks|
  {
    && n < |events| && |After(s, events, n).lines| == k
    && var t := After(s, events, n + 1);
       && |t.lines| == k + 1 && t.lines[k] == r && t.current == r.task
       && r.task < |t.tasks| && t.tasks[r.task].eax == r.value && t.tasks[r.task].state == Running
  }

  lemma {:induction false} GetsHasEvent(s: State, events: seq<Event>, n: nat, k: nat)
    requires s.current < |s.tasks| && n <= |events| && |s.lines| <= k < |After(s, events, n).lines|
    ensures exists m: nat :: m < n && GetsReturnsAt(s, events, m, k, After(s, events, n).lines[k])
    decreases n
  {
    hide Step, After;
    AfterAll(s, events);
    if n > 0 {
      var u := After(s, events, n - 1);
      AfterOneMore(s, events, n - 1);
      StepReturns(u, events[n - 1]);
      if k < |u.lines| {
        GetsHasEvent(s, events, n - 1, k);
        var m: nat :| m < n - 1 && GetsReturnsAt(s, events, m, k, u.lines[k]);
        assert After(s, events, n).lines[..|u.lines|] == u.lines;
      } else {
        assert GetsReturnsAt(s, events, n - 1, k, After(s, events, n).lines[k]);
      }
    }
  }

  /** In event `n` task `parent` comes back from SYS_EXEC with what its child `child` has passed to SYS_EXIT, in
      event `m`, in EAX. */
  ghost predicate ChildAnswers(s: State, events: seq<Event>, m: nat, n: nat, r: ExecReturn)
    requires s.current < |s.tasks|
  {
    && m <= n < |events|
    && var t := After(s, events, n + 1);
       && t.current == r.parent && r.parent < |t.tasks| && t.tasks[r.parent].state == Running
       && r.child < |t.tasks| && t.tasks[r.child].parent == Some(r.parent)
       && ExitsAt(s, events, m, r.child, t.tasks[r.parent].eax)
  }

  /** In every run from a state where no task has exited, each return of SYS_EXEC leaves in the caller's EAX what
      its own child has passed to SYS_EXIT before. */
  lemma ExecReturnsInEax(s: State, events: seq<Event>, k: nat)
    requires s.current < |s.tasks| && |s.execs| <= k < |Run(s, events).execs| && s.exits == map[]
    requires Safe(s) && GoodRun(s, events)
    ensures exists m: nat, n: nat :: ChildAnswers(s, events, m, n, Run(s, events).execs[k])
  {
    hide Safe, Step, GoodRun, After, Run;
    AfterAll(s, events);
    var r := Run(s, events).execs[k];
    ExecHasEvent(s, events, |events|, k);
    var n: nat :| n < |events| && ExecReturnsAt(s, events, n, k, r);
    RecordedExec(s, events, n + 1, k);
    ExitIsEvent(s, events, n + 1, r.child);
    var m: nat :| m < n + 1 && ExitsAt(s, events, m, r.child, After(s, events, n + 1).exits[r.child]);
    assert ChildAnswers(s, events, m, n, r);
  }

  lemma RecordedExec(s: State, events: seq<Event>, n: nat, k: nat)
    requires Safe(s) && GoodRun(s, events) && n <= |events| && k < |After(s, events, n).execs|
    ensures var t := After(s, events, n); var r := t.execs[k];
            && r.child < |t.tasks| && t.tasks[r.child].parent == Some(r.parent)
            && r.child in t.exits && r.value == t.exits[r.child]
  {
    AfterIsSafe(s, events, n);
    assert ReturnOk(After(s, events, n), k);
  }

  /** In event `n` task `r.task` comes back from SYS_GETS with the length of the line in EAX, typed for its call
      `g` and ended by event `m`. */
  ghost predicate LineAnswers(s: State, events: seq<Event>, g: nat, m: nat, n: nat, r: GetsReturn)
    requires s.current < |s.tasks|
  {
    && m <= n < |events| && Session(s, events, g, m, r)
    && var t := After(s, events, n + 1);
       && t.current == r.task && r.task < |t.tasks| && t.tasks[r.task].state == Running
       && t.tasks[r.task].eax == |LineFor(s, events, g, m)|
  }

  /** In every run from a state where nobody reads, each return of SYS_GETS leaves in the caller's EAX the length
      of the line that the keys between its call and an Enter make. */
  lemma GetsReturnsInEax(s: State, events: seq<Event>, k: nat)
    requires s.current < |s.tasks| && k < |Run(s, events).lines|
    requires Safe(s) && GoodRun(s, events) && Idle(s)
    ensures exists g: nat, m: nat, n: nat :: LineAnswers(s, events, g, m, n, Run(s, events).lines[k])
  {
    hide Safe, Step, GoodRun, After, Run, LineFor, NoEnter, Held, Times;
    AfterAll(s, events);
    var r := Run(s, events).lines[k];
    GetsHasEvent(s, events, |events|, k);
    var n: nat :| n < |events| && GetsReturnsAt(s, events, n, k, r);
    TimesPositive(After(s, events, n + 1).lines, k);
    EachLineIsReturnedOnce(s, events, n + 1, r);
    IdleHoldsNone(s, |s.tasks|, r);
    NothingReturned(s, r);
    LinesEndedHaveSessions(s, events, n + 1, r);
    var g: nat, m: nat :| m < n + 1 && Session(s, events, g, m, r);
    assert LineAnswers(s, events, g, m, n, r);
  }

  lemma NothingReturned(s: State, r: GetsReturn)
    requires Idle(s)
    ensures Times(s.lines, r) == 0
  {
  }

  // ----- the answer comes -----

  /** Task `i` goes on in event `n` with its answer. */
  ghost predicate GoesOnAt(s: State, events: seq<Event>, n: nat, i: nat, p: Pending)
    requires s.current < |s.tasks|
  {
    n < |events| && GoesOn(After(s, events, n + 1), i, p)
  }

  /** A ready task with its call still to finish. */
  predicate StillReady(s: State, i: nat, p: Pending) {
    !s.halted && i < |s.tasks| && s.tasks[i].state == Ready && s.tasks[i].pending == p && (p.InExec? || p.Typed?)
  }

  lemma ScheduleDoesNotHalt(s: State, i: nat)
    requires s.current < |s.tasks| && !s.halted && i < |s.tasks| && Runnable(s.tasks[i])
    ensures !Schedule(s).halted
  {
    ChosenIsNearest(s.tasks, s.current);
  }

  lemma ReadyStepDoesNotHalt(s: State, e: Event, i: nat, p: Pending)
    requires s.current < |s.tasks| && Safe(s) && StillReady(s, i, p)
    ensures !Step(s, e).halted
  {
    hide Schedule, DeliveredOnce, ReturnOk, LineOk, BlocksDiffer;
    assert TaskOk(s, i) && TaskOk(s, s.current);
    match e
    case Tick => ScheduleDoesNotHalt(s, i);
    case Gets(buffer, size) => if buffer && size > 0 { ScheduleDoesNotHalt(Reading(s, size), i); }
    case Exec(path, made) => if path && made.Created? { ScheduleDoesNotHalt(Awaiting(s, made), i); }
    case Exit(status) => ScheduleDoesNotHalt(Ended(s, status), i);
    case _ =>
  }

  lemma StepStillReady(s: State, e: Event, i: nat, p: Pending)
    requires s.current < |s.tasks| && Safe(s) && GoodEvent(s, e) && StillReady(s, i, p)
    ensures StillReady(Step(s, e), i, p) || GoesOn(Step(s, e), i, p)
  {
    hide Step, GoesOn, Settled;
    StaysOrGoesOn(s, e, i);
    ReadyStepDoesNotHalt(s, e, i, p);
    StepKeeps(s, e);
    ReadyMeans(s, i, p);
    StepExits(s, e);
    if Step(s, e).tasks[i].pending == p { PendingIsReady(Step(s, e), i, p); }
  }

  lemma ReadyMeans(s: State, i: nat, p: Pending)
    requires Safe(s) && StillReady(s, i, p)
    ensures p.InExec? ==> p.child in s.exits
  {
    assert TaskOk(s, i);
  }

  lemma PendingIsReady(s: State, i: nat, p: Pending)
    requires Safe(s) && i < |s.tasks| && s.tasks[i].pending == p && (p.Typed? || (p.InExec? && p.child in s.exits))
    ensures s.tasks[i].state == Ready
  {
    assert TaskOk(s, i);
  }

  lemma {:induction false} ReadyUntilItGoesOn(s: State, events: seq<Event>, n: nat, i: nat, p: Pending)
    requires s.current < |s.tasks| && n <= |events|
    requires Safe(s) && GoodRun(s, events) && StillReady(s, i, p)
    ensures StillReady(After(s, events, n), i, p) || exists m: nat :: m < n && GoesOnAt(s, events, m, i, p)
    decreases n
  {
    hide Safe, Step, GoodRun, GoodEvent, After, StillReady, GoesOn;
    AfterAll(s, events);
    if n > 0 {
      ReadyUntilItGoesOn(s, events, n - 1, i, p);
      if m: nat :| m < n - 1 && GoesOnAt(s, events, m, i, p) {
        assert m < n;
      } else {
        AfterIsSafe(s, events, n - 1);
        GoodEventAt(s, events, n - 1);
        AfterOneMore(s, events, n - 1);
        StepStillReady(After(s, events, n - 1), events[n - 1], i, p);
        if GoesOn(After(s, events, n), i, p) { assert GoesOnAt(s, events, n - 1, i, p); }
      }
    }
  }

  lemma GoodEventAt(s: State, events: seq<Event>, n: nat)
    requires s.current < |s.tasks| && GoodRun(s, events) && n < |events|
    ensures GoodEvent(After(s, events, n), events[n])
  {
    GoodBefore(s, events, n + 1);
    assert events[..n + 1][..n] == events[..n];
  }

  /** A parent whose child has exited, and a task for which a line has been typed, go on with that answer in EAX
      after as many `schedule` calls as their distance in the ring, plus one for each task inserted on the
      way. */
  lemma AnswerComes(s: State, events: seq<Event>, i: nat, p: Pending)
    requires s.current < |s.tasks| && i < |s.tasks|
    requires Safe(s) && GoodRun(s, events) && StillReady(s, i, p)
    requires AllCalls(events) >= Distance(|s.tasks|, s.current, i) + AllInserts(s, events, i)
    ensures exists n: nat :: GoesOnAt(s, events, n, i, p)
  {
    hide AllCalls, AllInserts, Distance, GoesOn, Settled;
    BoundedWait(s, events, i);
    var k: nat :| k <= |events| && Run(s, events[..k]).current == i;
    ReadyUntilItGoesOn(s, events, k, i, p);
    AfterIsSafe(s, events, k);
    assert !StillReady(After(s, events, k), i, p);
    var m: nat :| m < k && GoesOnAt(s, events, m, i, p);
  }

  // ----- new tasks -----

  /** The task a successful creation adds: ready (or already running), with the caller of SYS_EXEC, or the task the
      kernel ran in, as its parent; a kernel task has none. A failed one adds none. */
  lemma CreatedTaskIs(s: State, e: Event)
    requires s.current < |s.tasks| && !s.halted && ((e.Exec? && e.path) || e.CreateTask? || e.Spawn?)
    ensures e.made.NotCreated? ==> |Step(s, e).tasks| == |s.tasks|
    ensures e.made.Created? ==>
              && |Step(s, e).tasks| == |s.tasks| + 1
              && var c := Step(s, e).tasks[|s.tasks|];
                 && (c.state == Ready || (c.state == Running && e.Exec?)) && c.block == e.made.block && c.eax == 0
                 && c.pending == Nothing && c.waitingOn == 0
                 && c.parent == (if e.CreateTask? then None else Some(s.current)) && c.awaited == e.Exec?
    ensures Step(s, e).used == e.made.used
  {
    hide Schedule;
    if e.Exec? && e.made.Created? {
      ScheduleAt(Awaiting(s, e.made), |s.tasks|);
    }
  }

  /** What `schedule` does to a task without a call to finish. */
  lemma ScheduleAt(s: State, i: nat)
    requires s.current < |s.tasks| && i < |s.tasks| && i != s.current && s.tasks[i].pending.Nothing?
    ensures var t, u := s.tasks[i], Schedule(s).tasks[i]; u == t || u == t.(state := Running)
    ensures Schedule(s).used == s.used
  {
    hide Chosen;
    var r := Chosen(s.tasks, s.current);
    if r.Some? && r.value < |s.tasks| {
      DispatchAt(s, r.value, i);
    }
  }
}
