/** Lines from the keyboard over whole runs: what SYS_GETS returns, and what was typed for it, whatever
    ticks, system calls and other tasks' readings come in between. */
module Lines {
  import opened Options
  import opened Words
  import opened Console
  import opened LineEditor
  import opened Protocol
  import opened Safety
  import opened Runs

  /** The state after the first `n` events. */
  function After(s: State, events: seq<Event>, n: nat): (u: State)
    requires s.current < |s.tasks| && n <= |events|
    ensures u.current < |u.tasks|
  {
    Run(s, events[..n])
  }

  lemma AfterOneMore(s: State, events: seq<Event>, n: nat)
    requires s.current < |s.tasks| && n < |events|
    ensures After(s, events, n + 1) == Step(After(s, events, n), events[n])
  {
    assert events[..n + 1][..n] == events[..n];
  }

  lemma AfterAll(s: State, events: seq<Event>)
    requires s.current < |s.tasks|
    ensures After(s, events, |events|) == Run(s, events) && After(s, events, 0) == s
  {
    assert events[..|events|] == events;
  }

  lemma {:induction false} GoodBefore(s: State, events: seq<Event>, n: nat)
    requires s.current < |s.tasks| && GoodRun(s, events) && n <= |events|
    ensures GoodRun(s, events[..n])
    decreases |events|
  {
    if n < |events| {
      var before := events[..|events| - 1];
      GoodBefore(s, before, n);
      assert before[..n] == events[..n];
    } else {
      assert events[..n] == events;
    }
  }

  lemma AfterIsSafe(s: State, events: seq<Event>, n: nat)
    requires Safe(s) && GoodRun(s, events) && n <= |events|
    ensures Safe(After(s, events, n))
  {
    GoodBefore(s, events, n);
    AlwaysSafe(s, events[..n]);
  }

  // ----- the keys of a session -----

  /** Event `k` is a key that is served; after a halt none is. */
  predicate Pressed(s: State, events: seq<Event>, k: nat)
    requires s.current < |s.tasks|
  {
    k < |events| && events[k].Key? && !After(s, events, k).halted
  }

  /** The keys served from event `first` on, before event `end`. */
  function KeysBetween(s: State, events: seq<Event>, first: nat, end: nat): (keys: seq<Char>)
    requires s.current < |s.tasks|
    decreases end
  {
    if end <= first then []
    else KeysBetween(s, events, first, end - 1) + if Pressed(s, events, end - 1) then [events[end - 1].c] else []
  }

  predicate EnterAt(s: State, events: seq<Event>, k: nat)
    requires s.current < |s.tasks|
  {
    Pressed(s, events, k) && events[k].c == NEWLINE
  }

  ghost predicate NoEnter(s: State, events: seq<Event>, first: nat, end: nat)
    requires s.current < |s.tasks|
  {
    forall k: nat :: first <= k < end ==> !EnterAt(s, events, k)
  }

  /** Event `g` is a SYS_GETS that makes its caller the reader. */
  predicate Opens(s: State, events: seq<Event>, g: nat)
    requires s.current < |s.tasks|
  {
    && g < |events| && events[g].Gets? && events[g].buffer && events[g].size > 0
    && !After(s, events, g).halted && After(s, events, g).reader.NoReader?
  }

  function Caller(s: State, events: seq<Event>, g: nat): nat
    requires s.current < |s.tasks| && g <= |events|
  {
    After(s, events, g).current
  }

  /** What the line editor makes of the keys served between the call `g` and event `n`. */
  function LineFor(s: State, events: seq<Event>, g: nat, n: nat): (line: seq<Char>)
    requires s.current < |s.tasks| && Opens(s, events, g)
    ensures |line| <= Room(events[g].size)
  {
    EditAll(KeysBetween(s, events, g + 1, n), events[g].size)
  }

  /** Before event `n`, the line being typed is for call `g`, and consists of the keys since. */
  ghost predicate Open(s: State, events: seq<Event>, g: nat, n: nat)
    requires s.current < |s.tasks| && n <= |events|
  {
    && g < n && Opens(s, events, g) && NoEnter(s, events, g + 1, n)
    && After(s, events, n).reader == Reader(Caller(s, events, g), events[g].size, LineFor(s, events, g, n))
  }

  /** The value returned is the line typed for call `g` of the same task, ended by event `n`. */
  ghost predicate Session(s: State, events: seq<Event>, g: nat, n: nat, r: GetsReturn)
    requires s.current < |s.tasks|
  {
    && g < n < |events| && Opens(s, events, g) && r.task == Caller(s, events, g)
    && NoEnter(s, events, g + 1, n) && EnterAt(s, events, n)
    && r.line == LineFor(s, events, g, n) && r.value == |r.line|
  }

  // ----- the reader -----

  lemma ScheduleLeavesReader(s: State)
    requires s.current < |s.tasks|
    ensures Schedule(s).reader == s.reader
  {
    hide Chosen;
  }

  lemma ReaderFits(s: State)
    requires Safe(s) && s.reader.Reader?
    ensures s.reader.task < |s.tasks| && s.reader.size > 0 && |s.reader.line| < WORD
  {
  }

  /** What a step does to the reading session. */
  lemma StepReader(s: State, e: Event)
    requires s.current < |s.tasks| && Safe(s)
    ensures s.reader.Reader? ==> s.reader.size > 0
    ensures Step(s, e).reader ==
            if s.halted then s.reader
            else if s.reader.NoReader? && e.Gets? && e.buffer && e.size > 0 then Reader(s.current, e.size, [])
            else if s.reader.Reader? && e.Key? && e.c == NEWLINE then NoReader
            else if s.reader.Reader? && e.Key? then
              s.reader.(line := Edit(s.reader.line, s.reader.size, e.c))
            else s.reader
  {
    hide Safe, Schedule, Edit;
    if s.reader.Reader? { ReaderFits(s); }
    match e
    case Tick => ScheduleLeavesReader(s);
    case Gets(buffer, size) => ScheduleLeavesReader(Reading(s, size));
    case Exec(path, made) => if made.Created? { ScheduleLeavesReader(Awaiting(s, made)); }
    case Exit(status) => ScheduleLeavesReader(Ended(s, status));
    case _ =>
  }

  lemma NewSession(s: State, events: seq<Event>, g: nat)
    requires s.current < |s.tasks| && Opens(s, events, g)
    requires After(s, events, g + 1).reader == Reader(Caller(s, events, g), events[g].size, [])
    ensures Open(s, events, g, g + 1)
  {
  }

  lemma OneMoreKey(keys: seq<Char>, c: Char, size: nat)
    requires size > 0
    ensures EditAll(keys + [c], size) == Edit(EditAll(keys, size), size, c)
  {
    assert (keys + [c])[..|keys|] == keys;
  }

  lemma SessionGoesOn(s: State, events: seq<Event>, g: nat, n: nat)
    requires s.current < |s.tasks| && n < |events| && Open(s, events, g, n) && !EnterAt(s, events, n)
    requires After(s, events, n + 1).reader ==
             if Pressed(s, events, n)
             then Reader(Caller(s, events, g), events[g].size,
                         Edit(LineFor(s, events, g, n), events[g].size, events[n].c))
             else After(s, events, n).reader
    ensures Open(s, events, g, n + 1)
  {
    hide After, Edit, EditAll;
    var keys := KeysBetween(s, events, g + 1, n);
    if Pressed(s, events, n) {
      OneMoreKey(keys, events[n].c, events[g].size);
    } else {
      assert keys + [] == keys;
    }
  }

  /** In every reachable state with a reader, its line is what the line editor makes of the keys pressed
      since it called SYS_GETS. */
  lemma {:induction false} LineIsOfKeysSince(s: State, events: seq<Event>, n: nat)
    requires s.current < |s.tasks| && n <= |events|
    requires Safe(s) && GoodRun(s, events) && s.reader.NoReader?
    ensures After(s, events, n).reader.Reader? ==> exists g: nat :: Open(s, events, g, n)
    decreases n
  {
    hide Safe, Step, GoodRun, Run, After, Edit, EditAll, KeysBetween, NoEnter;
    AfterAll(s, events);
    if n > 0 {
      var u, e := After(s, events, n - 1), events[n - 1];
      LineIsOfKeysSince(s, events, n - 1);
      AfterIsSafe(s, events, n - 1);
      AfterOneMore(s, events, n - 1);
      StepReader(u, e);
      if After(s, events, n).reader.Reader? {
        if u.reader.NoReader? {
          NewSession(s, events, n - 1);
        } else {
          var g: nat :| Open(s, events, g, n - 1);
          SessionGoesOn(s, events, g, n - 1);
        }
      }
    }
  }

  // ----- every line typed is returned once -----

  /** The line the step ends, for the task it was typed for. */
  function LineEnded(s: State, e: Event): (lines: seq<GetsReturn>)
    ensures |lines| <= 1
  {
    if !s.halted && e == Key(NEWLINE) && s.reader.Reader? && |s.reader.line| < WORD
    then [GetsReturn(s.reader.task, s.reader.line, |s.reader.line|)] else []
  }

  /** The lines ended by the first `n` events. */
  function LinesEnded(s: State, events: seq<Event>, n: nat): seq<GetsReturn>
    requires s.current < |s.tasks| && n <= |events|
  {
    if n == 0 then []
    else LinesEnded(s, events, n - 1) + LineEnded(After(s, events, n - 1), events[n - 1])
  }

  /** How often a value is among those returned. */
  function Times(lines: seq<GetsReturn>, r: GetsReturn): nat {
    if lines == [] then 0 else Times(lines[..|lines| - 1], r) + if lines[|lines| - 1] == r then 1 else 0
  }

  lemma TimesAppend(lines: seq<GetsReturn>, more: seq<GetsReturn>, r: GetsReturn)
    requires |more| <= 1
    ensures Times(lines + more, r) == Times(lines, r) + Times(more, r)
  {
    if more == [] {
      assert lines + more == lines;
    } else {
      assert (lines + more)[..|lines|] == lines && more[..0] == [];
    }
  }

  lemma {:induction false} TimesPositive(lines: seq<GetsReturn>, k: nat)
    requires k < |lines|
    ensures Times(lines, lines[k]) > 0
  {
    if k < |lines| - 1 {
      TimesPositive(lines[..|lines| - 1], k);
    }
  }

  /** How often it is what a task will come back with, for which a line has been typed. */
  function HeldAt(t: Task, i: nat, r: GetsReturn): nat {
    if t.pending.Typed? && r == GetsReturn(i, t.pending.line, t.retval) then 1 else 0
  }

  function Held(tasks: seq<Task>, n: nat, r: GetsReturn): nat
    requires n <= |tasks|
  {
    if n == 0 then 0 else Held(tasks, n - 1, r) + HeldAt(tasks[n - 1], n - 1, r)
  }

  /** How often it has been returned or will be. */
  function Due(s: State, r: GetsReturn): nat {
    Times(s.lines, r) + Held(s.tasks, |s.tasks|, r)
  }

  /** When one task changes. */
  lemma {:induction false} HeldUpdate(a: seq<Task>, i: nat, t: Task, n: nat, r: GetsReturn)
    requires i < |a| && n <= |a|
    ensures Held(a[i := t], n, r) ==
            Held(a, n, r) + if i < n then HeldAt(t, i, r) - HeldAt(a[i], i, r) else 0
    decreases n
  {
    if n > 0 {
      HeldUpdate(a, i, t, n - 1, r);
    }
  }

  lemma {:induction false} HeldAppend(a: seq<Task>, t: Task, n: nat, r: GetsReturn)
    requires n <= |a|
    ensures Held(a + [t], n, r) == Held(a, n, r)
    decreases n
  {
    if n > 0 {
      HeldAppend(a, t, n - 1, r);
    }
  }

  lemma DispatchConserves(s: State, j: nat, r: GetsReturn)
    requires s.current < |s.tasks| && j < |s.tasks|
    ensures Due(Dispatch(s, j), r) == Due(s, r)
  {
    hide Times, Held;
    var c := s.current;
    var p := Preempted(s.tasks[c]);
    var tasks := s.tasks[c := p];
    HeldUpdate(s.tasks, c, p, |tasks|, r);
    HeldUpdate(tasks, j, Resumed(tasks[j]), |tasks|, r);
    TimesAppend(s.lines, GetsDone(j, tasks[j]), r);
    DoneTimes(j, tasks[j], r);
  }

  lemma DoneTimes(i: nat, t: Task, r: GetsReturn)
    ensures Times(GetsDone(i, t), r) == HeldAt(t, i, r)
  {
    if t.pending.Typed? { assert GetsDone(i, t)[..0] == []; }
  }

  lemma ScheduleConserves(s: State, r: GetsReturn)
    requires s.current < |s.tasks|
    ensures Due(Schedule(s), r) == Due(s, r)
  {
    hide Dispatch;
    var j := Chosen(s.tasks, s.current);
    if j.Some? {
      DispatchConserves(s, j.value, r);
    }
  }

  /** Setting one task to one that holds no other line. */
  lemma TaskConserves(s: State, t: State, i: nat, r: GetsReturn)
    requires i < |s.tasks| && t.lines == s.lines && i < |t.tasks| && t.tasks == s.tasks[i := t.tasks[i]]
    ensures Due(t, r) == Due(s, r) + HeldAt(t.tasks[i], i, r) - HeldAt(s.tasks[i], i, r)
  {
    HeldUpdate(s.tasks, i, t.tasks[i], |s.tasks|, r);
  }

  lemma AddConserves(s: State, made: Creation, parent: Option<nat>, awaited: bool, r: GetsReturn)
    ensures Due(AddTask(s, made, parent, awaited), r) == Due(s, r)
  {
    hide Times;
    if made.Created? {
      HeldAppend(s.tasks, Task(Ready, parent, 0, 0, 0, 0, Nothing, awaited, made.block), |s.tasks|, r);
    }
  }

  lemma AwaitingConserves(s: State, made: Creation, r: GetsReturn)
    requires Safe(s) && !s.halted && made.Created?
    ensures Due(Awaiting(s, made), r) == Due(s, r)
  {
    hide Times, Held;
    assert TaskOk(s, s.current);
    var u := AddTask(s, made, Some(s.current), true);
    AddConserves(s, made, Some(s.current), true, r);
    TaskConserves(u, Awaiting(s, made), s.current, r);
  }

  lemma ReadingConserves(s: State, size: nat, r: GetsReturn)
    requires Safe(s) && !s.halted
    ensures Due(Reading(s, size), r) == Due(s, r)
  {
    hide Times, Held;
    assert TaskOk(s, s.current);
    TaskConserves(s, Reading(s, size), s.current, r);
  }

  lemma EndedConserves(s: State, status: Word32, r: GetsReturn)
    requires Safe(s) && !s.halted
    ensures Due(Ended(s, status), r) == Due(s, r)
  {
    hide Times, Held;
    var c := s.current;
    var t := s.(tasks := s.tasks[c := s.tasks[c].(state := Terminated)]);
    TaskConserves(s, t, c, r);
    if Waiter(s).Some? {
      TaskConserves(t, Ended(s, status), Waiter(s).value, r);
    }
  }

  lemma EaxConserves(s: State, v: Word32, r: GetsReturn)
    requires s.current < |s.tasks|
    ensures Due(SetEax(s, v), r) == Due(s, r)
  {
    hide Times, Held;
    TaskConserves(s, SetEax(s, v), s.current, r);
  }

  lemma KeyConserves(s: State, c: Char, r: GetsReturn)
    requires Safe(s) && !s.halted
    ensures Due(KeyPress(s, c), r) == Due(s, r) + Times(LineEnded(s, Key(c)), r)
  {
    hide Held;
    if s.reader.Reader? && c == NEWLINE {
      assert TaskOk(s, s.reader.task) && LineEnded(s, Key(c))[..0] == [];
      TaskConserves(s, KeyPress(s, c), s.reader.task, r);
    }
  }

  /** A step gives a task the line it ends, and else moves lines only from held to returned. */
  lemma StepConserves(s: State, e: Event, r: GetsReturn)
    requires s.current < |s.tasks| && Safe(s)
    ensures Due(Step(s, e), r) == Due(s, r) + Times(LineEnded(s, e), r)
  {
    hide Due, Schedule, Awaiting, Reading, Ended, AddTask, KeyPress, SetEax, Safe;
    if !s.halted {
      match e
      case Tick => ScheduleConserves(s, r);
      case Key(c) => KeyConserves(s, c, r);
      case Putc => EaxConserves(s, 0, r);
      case Gets(buffer, size) =>
        if buffer && size > 0 {
          ReadingConserves(s, size, r);
          ScheduleConserves(Reading(s, size), r);
        } else {
          EaxConserves(s, FAILURE, r);
        }
      case Exec(path, made) =>
        if path && made.Created? {
          AwaitingConserves(s, made, r);
          ScheduleConserves(Awaiting(s, made), r);
        } else {
          EaxConserves(s, FAILURE, r);
          EaxConserves(s.(used := made.used), FAILURE, r);
          UsedConserves(s, made.used, r);
        }
      case Exit(status) =>
        EndedConserves(s, status, r);
        ScheduleConserves(Ended(s, status), r);
      case CreateTask(made) => AddConserves(s, made, None, false, r);
      case Spawn(made) => AddConserves(s, made, Some(s.current), false, r);
      case OtherCall => EaxConserves(s, FAILURE, r);
    }
  }

  lemma UsedConserves(s: State, used: set<nat>, r: GetsReturn)
    ensures Due(s.(used := used), r) == Due(s, r)
  {
  }

  lemma OneMoreEnded(s: State, events: seq<Event>, n: nat, r: GetsReturn)
    requires s.current < |s.tasks| && n < |events|
    ensures Times(LinesEnded(s, events, n + 1), r) ==
            Times(LinesEnded(s, events, n), r) + Times(LineEnded(After(s, events, n), events[n]), r)
  {
    hide Times, LineEnded, After;
    OneLine(After(s, events, n), events[n]);
    TimesAppend(LinesEnded(s, events, n), LineEnded(After(s, events, n), events[n]), r);
  }

  lemma OneLine(s: State, e: Event)
    ensures |LineEnded(s, e)| <= 1
  {
  }

  lemma NoneEnded(s: State, events: seq<Event>, r: GetsReturn)
    requires s.current < |s.tasks|
    ensures Times(LinesEnded(s, events, 0), r) == 0
  {
  }

  /** In every run each line that is typed is returned once, or its task is ready to return with it:
      none is lost, none is returned twice, and nothing else is returned. */
  lemma {:induction false} EachLineIsReturnedOnce(s: State, events: seq<Event>, n: nat, r: GetsReturn)
    requires s.current < |s.tasks| && n <= |events|
    requires Safe(s) && GoodRun(s, events)
    ensures Due(After(s, events, n), r) == Due(s, r) + Times(LinesEnded(s, events, n), r)
    decreases n
  {
    hide Safe, Step, GoodRun, Run, After, LineEnded, LinesEnded, Times, Due;
    AfterAll(s, events);
    NoneEnded(s, events, r);
    if n > 0 {
      var u := After(s, events, n - 1);
      EachLineIsReturnedOnce(s, events, n - 1, r);
      AfterIsSafe(s, events, n - 1);
      AfterOneMore(s, events, n - 1);
      StepConserves(u, events[n - 1], r);
      OneMoreEnded(s, events, n - 1, r);
    }
  }

  // ----- what SYS_GETS returns -----

  /** A line that is ended is one typed for a call. */
  lemma EndedIsOfSession(s: State, events: seq<Event>, n: nat, r: GetsReturn)
    requires s.current < |s.tasks| && n < |events|
    requires Safe(s) && GoodRun(s, events) && s.reader.NoReader?
    requires Times(LineEnded(After(s, events, n), events[n]), r) > 0
    ensures exists g: nat :: Session(s, events, g, n, r)
  {
    hide Safe, Step, GoodRun, Run, After, KeysBetween, EditAll;
    var u := After(s, events, n);
    LineIsOfKeysSince(s, events, n);
    var g: nat :| Open(s, events, g, n);
    assert Session(s, events, g, n, r);
  }

  lemma {:induction false} LinesEndedHaveSessions(s: State, events: seq<Event>, n: nat, r: GetsReturn)
    requires s.current < |s.tasks| && n <= |events|
    requires Safe(s) && GoodRun(s, events) && s.reader.NoReader? && Times(LinesEnded(s, events, n), r) > 0
    ensures exists g: nat, e: nat :: e < n && Session(s, events, g, e, r)
    decreases n
  {
    hide Safe, GoodRun, Run, After, Session, LineEnded, LinesEnded, Times;
    NoneEnded(s, events, r);
    if n > 0 {
      var ended := LineEnded(After(s, events, n - 1), events[n - 1]);
      OneMoreEnded(s, events, n - 1, r);
      if Times(ended, r) > 0 {
        EndedIsOfSession(s, events, n - 1, r);
        var g: nat :| Session(s, events, g, n - 1, r);
      } else {
        LinesEndedHaveSessions(s, events, n - 1, r);
        var g: nat, e: nat :| e < n - 1 && Session(s, events, g, e, r);
      }
    }
  }

  /** Nobody reads, and no line waits to be returned. */
  ghost predicate Idle(s: State) {
    s.reader.NoReader? && s.lines == [] && forall i: nat :: i < |s.tasks| ==> !s.tasks[i].pending.Typed?
  }

  lemma {:induction false} IdleHoldsNone(s: State, n: nat, r: GetsReturn)
    requires Idle(s) && n <= |s.tasks|
    ensures Held(s.tasks, n, r) == 0
    decreases n
  {
    if n > 0 {
      IdleHoldsNone(s, n - 1, r);
    }
  }

  lemma BootedIsIdle(used: set<nat>, total: nat, block: nat)
    ensures Idle(Booted(used, total, block))
  {
  }

  /** In every run from such a state, as after boot (`BootedIsIdle`), each return of SYS_GETS is for a call made
      by the same task: it gives the length of the line that the keys between that call and an Enter make,
      whatever else happens between them. */
  lemma GetsReturnsOwnLine(s: State, events: seq<Event>, k: nat)
    requires s.current < |s.tasks| && k < |Run(s, events).lines|
    requires Safe(s) && GoodRun(s, events) && Idle(s)
    ensures exists g: nat, n: nat :: Session(s, events, g, n, Run(s, events).lines[k])
  {
    hide Safe, Step, GoodRun, Session, Held;
    var t := Run(s, events);
    AfterAll(s, events);
    TimesPositive(t.lines, k);
    EachLineIsReturnedOnce(s, events, |events|, t.lines[k]);
    IdleHoldsNone(s, |s.tasks|, t.lines[k]);
    LinesEndedHaveSessions(s, events, |events|, t.lines[k]);
  }

  // ----- one session -----

  /** What the step does to a session that is open. */
  lemma StepOpen(s: State, e: Event)
    requires s.current < |s.tasks| && s.reader.Reader? && s.reader.size > 0
    ensures s.halted ==> Step(s, e) == s
    ensures !s.halted && !(e.Key? && e.c == NEWLINE) ==>
              Step(s, e).reader ==
              if e.Key? then s.reader.(line := Edit(s.reader.line, s.reader.size, e.c)) else s.reader
    ensures !s.halted && e.Key? && e.c != NEWLINE ==>
              Step(s, e) == s.(reader := s.reader.(line := Edit(s.reader.line, s.reader.size, e.c)))
  {
  }

  /** While a task reads, the keys served build up the fold of the line editor, whatever happens between
      them; nothing but Enter ends the session. The keys alone change nothing else. */
  lemma {:induction false} KeysEditTheLine(s: State, events: seq<Event>, n: nat)
    requires s.current < |s.tasks| && s.reader.Reader? && s.reader.size > 0 && s.reader.line == []
    requires n <= |events| && NoEnter(s, events, 0, n)
    ensures After(s, events, n).reader ==
            s.reader.(line := EditAll(KeysBetween(s, events, 0, n), s.reader.size))
    ensures (forall k: nat :: k < n ==> events[k].Key?) ==>
              After(s, events, n) == s.(reader := After(s, events, n).reader)
    decreases n
  {
    hide Step, Edit;
    AfterAll(s, events);
    if n > 0 {
      var u, keys := After(s, events, n - 1), KeysBetween(s, events, 0, n - 1);
      KeysEditTheLine(s, events, n - 1);
      AfterOneMore(s, events, n - 1);
      StepOpen(u, events[n - 1]);
      assert !EnterAt(s, events, n - 1);
      if Pressed(s, events, n - 1) {
        OneMoreKey(keys, events[n - 1].c, s.reader.size);
      } else {
        assert keys + [] == keys;
      }
    }
  }

  lemma StepKeepsTasks(s: State, e: Event)
    requires s.current < |s.tasks|
    ensures |s.tasks| <= |Step(s, e).tasks|
  {
  }

  lemma {:induction false} TasksStay(s: State, events: seq<Event>, n: nat)
    requires s.current < |s.tasks| && n <= |events|
    ensures |s.tasks| <= |After(s, events, n).tasks|
    decreases n
  {
    hide Step;
    if n > 0 {
      TasksStay(s, events, n - 1);
      AfterOneMore(s, events, n - 1);
      StepKeepsTasks(After(s, events, n - 1), events[n - 1]);
    }
  }

  /** The Enter that ends it wakes the reader with the length of the line the keys make. */
  lemma EnterDeliversTheLine(s: State, events: seq<Event>, n: nat)
    requires s.current < |s.tasks| && s.reader.Reader? && s.reader.size > 0 && s.reader.line == []
    requires n < |events| && NoEnter(s, events, 0, n) && EnterAt(s, events, n)
    requires s.reader.task < |s.tasks|
    ensures |s.tasks| <= |After(s, events, n).tasks|
    ensures var line, i := EditAll(KeysBetween(s, events, 0, n), s.reader.size), s.reader.task;
            var u := After(s, events, n);
            var t := u.tasks[i].(state := Ready, retval := |line|, pending := Typed(line));
            After(s, events, n + 1) == u.(tasks := u.tasks[i := t], reader := NoReader)
  {
    hide EditAll, KeysBetween, After;
    TasksStay(s, events, n);
    KeysEditTheLine(s, events, n);
    AfterOneMore(s, events, n);
  }

  // ----- the line arrives -----

  /** Beside `m` earlier times, task `r.task` has returned the value, or is ready to. */
  ghost predicate Arriving(s: State, r: GetsReturn, m: nat) {
    && Times(s.lines, r) >= m && r.task < |s.tasks|
    && (Times(s.lines, r) == m ==>
          !s.halted && s.tasks[r.task].pending == Typed(r.line) && s.tasks[r.task].retval == r.value)
  }

  lemma DispatchArrives(s: State, j: nat, r: GetsReturn, m: nat)
    requires s.current < |s.tasks| && j < |s.tasks| && Arriving(s, r, m)
    ensures Arriving(Dispatch(s, j), r, m)
  {
    hide Times;
    DispatchAt(s, j, r.task);
    TimesAppend(s.lines, GetsDone(j, s.tasks[j]), r);
    DoneTimes(j, s.tasks[j], r);
  }

  /** A task that is ready is no reason to halt. */
  lemma ScheduleArrives(s: State, r: GetsReturn, m: nat)
    requires s.current < |s.tasks| && Arriving(s, r, m)
    requires Times(s.lines, r) == m ==> s.tasks[r.task].state == Ready
    ensures Arriving(Schedule(s), r, m)
  {
    hide Times, Dispatch;
    ChosenIsNearest(s.tasks, s.current);
    var j := Chosen(s.tasks, s.current);
    if j.Some? {
      DispatchArrives(s, j.value, r, m);
    }
  }

  lemma StepArrives(s: State, e: Event, r: GetsReturn, m: nat)
    requires Safe(s) && Arriving(s, r, m)
    ensures Arriving(Step(s, e), r, m)
  {
    hide Schedule, DeliveredOnce, ReturnOk, LineOk, BlocksDiffer, Dispatch, Times;
    assert TaskOk(s, r.task) && TaskOk(s, s.current);
    if s.reader.Reader? { assert TaskOk(s, s.reader.task); }
    if !s.halted {
      match e
      case Tick => ScheduleArrives(s, r, m);
      case Gets(buffer, size) => if buffer && size > 0 { ScheduleArrives(Reading(s, size), r, m); }
      case Exec(path, made) => if path && made.Created? { ScheduleArrives(Awaiting(s, made), r, m); }
      case Exit(status) => ScheduleArrives(Ended(s, status), r, m);
      case _ =>
    }
  }

  lemma {:induction false} StaysArriving(s: State, events: seq<Event>, r: GetsReturn, m: nat)
    requires s.current < |s.tasks|
    requires Safe(s) && GoodRun(s, events) && Arriving(s, r, m)
    ensures Arriving(Run(s, events), r, m)
  {
    hide Safe, Step, Arriving;
    if events != [] {
      var before := events[..|events| - 1];
      StaysArriving(s, before, r, m);
      AlwaysSafe(s, before);
      StepArrives(Run(s, before), events[|events| - 1], r, m);
    }
  }

  lemma StepReturnsMore(s: State, e: Event, r: GetsReturn)
    requires s.current < |s.tasks|
    ensures Times(Step(s, e).lines, r) >= Times(s.lines, r)
  {
    hide Times;
    var lines := Step(s, e).lines;
    if lines != s.lines {
      TimesAppend(s.lines, lines[|s.lines|..], r);
    }
  }

  lemma {:induction false} ReturnsStay(s: State, events: seq<Event>, k: nat, n: nat, r: GetsReturn)
    requires s.current < |s.tasks| && k <= n <= |events|
    ensures Times(After(s, events, n).lines, r) >= Times(After(s, events, k).lines, r)
    decreases n
  {
    hide Step, Times, After;
    if k < n {
      ReturnsStay(s, events, k, n - 1, r);
      AfterOneMore(s, events, n - 1);
      StepReturnsMore(After(s, events, n - 1), events[n - 1], r);
    }
  }

  /** A task for which a line has been typed has come back with it, once more than before, when `schedule`
      has been called as often as its distance in the ring, plus once for each task inserted on the way. */
  lemma LineArrives(s: State, events: seq<Event>, i: nat)
    requires s.current < |s.tasks| && i < |s.tasks|
    requires Safe(s) && GoodRun(s, events) && !s.halted && s.tasks[i].pending.Typed?
    requires AllCalls(events) >= Distance(|s.tasks|, s.current, i) + AllInserts(s, events, i)
    ensures var r := GetsReturn(i, s.tasks[i].pending.line, s.tasks[i].retval);
            Times(Run(s, events).lines, r) > Times(s.lines, r)
  {
    hide AllCalls, AllInserts, Distance, Times, DeliveredOnce, ReturnOk, LineOk, BlocksDiffer;
    var r := GetsReturn(i, s.tasks[i].pending.line, s.tasks[i].retval);
    var m := Times(s.lines, r);
    assert TaskOk(s, i);
    BoundedWait(s, events, i);
    var k: nat :| k <= |events| && Run(s, events[..k]).current == i;
    GoodBefore(s, events, k);
    StaysArriving(s, events[..k], r, m);
    AlwaysSafe(s, events[..k]);
    assert TaskOk(Run(s, events[..k]), i);
    ReturnsStay(s, events, k, |events|, r);
    AfterAll(s, events);
  }

  // ----- a second reader -----

  /** A SYS_GETS made while nobody reads makes its caller the reader; made while another task reads, it
      locks its caller out. */
  lemma GetsReadsOrLocksOut(s: State, size: nat)
    requires Safe(s) && !s.halted && size > 0
    ensures var t := Step(s, Gets(true, size));
            && s.current < |t.tasks| && t.tasks[s.current].state == WaitingForKeyboard
            && if s.reader.NoReader? then t.reader == Reader(s.current, size, []) && !LockedOut(t, s.current)
               else t.reader == s.reader && LockedOut(t, s.current)
  {
    var b := Reading(s, size);
    assert TaskOk(s, s.current);
    ChosenIsNearest(b.tasks, b.current);
    if s.reader.Reader? {
      assert TaskOk(s, s.reader.task);
      ScheduleLeavesLockedOut(b, s.current);
    }
  }

  predicate IsReady(s: State, i: nat) {
    i < |s.tasks| && s.tasks[i].state == Ready
  }

  /** Another task can run. */
  ghost predicate OtherRunnable(s: State) {
    exists k: nat :: k < |s.tasks| && k != s.current && Runnable(s.tasks[k])
  }

  lemma HaltsWhenAlone(s: State, size: nat)
    requires Safe(s) && !s.halted && size > 0
    ensures Step(s, Gets(true, size)).halted <==> !OtherRunnable(s)
  {
    var b := Reading(s, size);
    HaltsExactlyWhenNoneRunnable(b);
    forall k: nat | k < |s.tasks| && k != s.current
      ensures b.tasks[k] == s.tasks[k]
    {
    }
  }

  lemma {:induction false} HaltIsFinal(s: State, events: seq<Event>)
    requires s.current < |s.tasks| && s.halted
    ensures Run(s, events) == s
  {
    if events != [] {
      HaltIsFinal(s, events[..|events| - 1]);
    }
  }

  /** A task that has called SYS_GETS stays blocked while it is locked out, and when it halted the processor. */
  lemma StaysBlocked(s: State, size: nat, events: seq<Event>)
    requires s.current < |s.tasks| && Safe(s) && !s.halted && size > 0 && (s.reader.Reader? || !OtherRunnable(s))
    requires GoodRun(Step(s, Gets(true, size)), events)
    ensures !IsReady(Run(Step(s, Gets(true, size)), events), s.current)
  {
    hide Safe, OtherRunnable, Step;
    var t := Step(s, Gets(true, size));
    HaltsWhenAlone(s, size);
    GetsReadsOrLocksOut(s, size);
    if s.reader.Reader? {
      StepKeeps(s, Gets(true, size));
      LockedOutForever(t, events, s.current);
    } else {
      HaltIsFinal(t, events);
    }
  }

  /** An Enter alone makes it ready. */
  lemma EnterWakes(s: State, size: nat)
    requires s.current < |s.tasks| && Safe(s) && !s.halted && size > 0 && s.reader.NoReader? && OtherRunnable(s)
    ensures var t, events := Step(s, Gets(true, size)), [Key(NEWLINE)];
            GoodRun(t, events) && IsReady(Run(t, events), s.current)
  {
    hide Settled, OtherRunnable;
    var t, events := Step(s, Gets(true, size)), [Key(NEWLINE)];
    HaltsWhenAlone(s, size);
    GetsReadsOrLocksOut(s, size);
    assert events[..0] == [] && Run(t, []) == t;
  }

  /** After a call of SYS_GETS some continuation makes the caller ready again if and only if nobody was
      reading and another task can run. Else it is locked out, or the processor halts. */
  lemma GetsCanReturnExactlyWhenFree(s: State, size: nat)
    requires s.current < |s.tasks| && Safe(s) && !s.halted && size > 0
    ensures var t := Step(s, Gets(true, size));
            (exists events: seq<Event> :: GoodRun(t, events) && IsReady(Run(t, events), s.current)) <==>
            s.reader.NoReader? && OtherRunnable(s)
  {
    hide Safe, Step, OtherRunnable, IsReady, GoodRun, Run;
    var t := Step(s, Gets(true, size));
    if s.reader.NoReader? && OtherRunnable(s) {
      EnterWakes(s, size);
    } else {
      forall events: seq<Event> | GoodRun(t, events)
        ensures !IsReady(Run(t, events), s.current)
      {
        StaysBlocked(s, size, events);
      }
    }
  }
}
