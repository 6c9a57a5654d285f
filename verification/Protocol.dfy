/** The task machine as a transition system: the ready ring, `schedule`, and the EXIT, GETS and EXEC
    protocol with the keyboard's wake-up. Each system call and each interrupt is one step.

    Tasks are numbered from 0 in the order they were created; the PID of task `i` is `i + 1`. A new
    task is linked in right behind the boot task, so the ring runs through the numbers downward: from
    0 to the newest task, and from there to the one created before it. */
module Protocol {
  import opened Options
  import opened Words
  import opened Console
  import opened LineEditor

  datatype TaskState = Running | Ready | Terminated | WaitingForKeyboard | WaitingForChild

  /** Where a task goes on when it is chosen again: in user code, behind the `schedule` of its GETS,
      before or after a line has been typed for it, or behind the `schedule` of its EXEC. */
  datatype Pending = Nothing | InGets | Typed(line: seq<Char>) | InExec(child: nat)

  /** `awaited`: created by SYS_EXEC. `block`: the frame of its control block. */
  datatype Task = Task(state: TaskState, parent: Option<nat>, waitingOn: nat, exitStatus: Word32,
                       retval: Word32, eax: Word32, pending: Pending, awaited: bool, block: nat)

  /** Who is reading from the keyboard. */
  datatype Reader = NoReader | Reader(task: nat, size: nat, line: seq<Char>)

  /** A value returned to the caller of SYS_EXEC, and of SYS_GETS. */
  datatype ExecReturn = ExecReturn(parent: nat, child: nat, value: Word32)
  datatype GetsReturn = GetsReturn(task: nat, line: seq<Char>, value: Word32)

  /** `used` are the frames in use out of `total`. `exits` records what each task passed to
      SYS_EXIT, `execs` and `lines` what was returned, in order. */
  datatype State = State(tasks: seq<Task>, current: nat, reader: Reader, halted: bool,
                         used: set<nat>, total: nat,
                         exits: map<nat, Word32>, execs: seq<ExecReturn>, lines: seq<GetsReturn>)

  const FAILURE: Word32 := 0xFFFF_FFFF   // (uint32_t)-1

  // ----- the ring and schedule -----

  predicate Runnable(t: Task) {
    t.state == Running || t.state == Ready
  }

  /** The `next` pointer. */
  function Next(n: nat, i: nat): (j: nat)
    requires i < n
    ensures j < n
  {
    if i == 0 then n - 1 else i - 1
  }

  /** How many `next` steps lead from one task to another, from 1 to `n`. */
  function Distance(n: nat, from: nat, to: nat): (d: nat)
    requires from < n && to < n
    ensures 1 <= d <= n && (d == n <==> from == to)
  {
    if to < from then from - to else from + n - to
  }

  /** The task `k` steps further along the ring. */
  function Follow(n: nat, i: nat, k: nat): (j: nat)
    requires i < n
    ensures j < n
    decreases k
  {
    if k == 0 then i else Next(n, Follow(n, i, k - 1))
  }

  lemma {:induction false} FollowCounts(n: nat, i: nat, k: nat)
    requires i < n && k <= n
    ensures Follow(n, i, k) == if k <= i then i - k else i + n - k
    decreases k
  {
    if k > 0 {
      FollowCounts(n, i, k - 1);
    }
  }

  /** The ring is one cycle: from any task every other is reached, in as many steps as its distance. */
  lemma RingIsOneCycle(n: nat, i: nat, j: nat)
    requires i < n && j < n
    ensures Follow(n, i, Distance(n, i, j)) == j
  {
    FollowCounts(n, i, Distance(n, i, j));
  }

  /** The search of `schedule`, at candidate `i`. */
  function Find(tasks: seq<Task>, current: nat, i: nat): (r: Option<nat>)
    requires current < |tasks| && i < |tasks|
    ensures r.Some? ==> r.value < |tasks|
    decreases if i == current then 0 else Distance(|tasks|, i, current)
  {
    if Runnable(tasks[i]) then Some(i)
    else if i == current then None
    else Find(tasks, current, Next(|tasks|, i))
  }

  function Chosen(tasks: seq<Task>, current: nat): (r: Option<nat>)
    requires current < |tasks|
    ensures r.Some? ==> r.value < |tasks|
  {
    Find(tasks, current, Next(|tasks|, current))
  }

  function Preempted(t: Task): Task {
    if t.state == Running then t.(state := Ready) else t
  }

  /** What a task finds in EAX when it goes on. */
  function Answer(t: Task): Word32 {
    match t.pending
    case Nothing => t.eax
    case InGets => t.retval
    case Typed(_) => t.retval
    case InExec(_) => t.exitStatus
  }

  /** A chosen task first finishes the system call it was blocked in. */
  function Resumed(t: Task): Task {
    t.(state := Running, eax := Answer(t), pending := Nothing)
  }

  function ExecDone(i: nat, t: Task): seq<ExecReturn> {
    if t.pending.InExec? then [ExecReturn(i, t.pending.child, t.exitStatus)] else []
  }

  function GetsDone(i: nat, t: Task): seq<GetsReturn> {
    if t.pending.Typed? then [GetsReturn(i, t.pending.line, t.retval)] else []
  }

  function Dispatch(s: State, j: nat): (r: State)
    requires s.current < |s.tasks| && j < |s.tasks|
    ensures |r.tasks| == |s.tasks| && r.current == j
  {
    var tasks := s.tasks[s.current := Preempted(s.tasks[s.current])];
    var t := tasks[j];
    s.(tasks := tasks[j := Resumed(t)], current := j,
       execs := s.execs + ExecDone(j, t), lines := s.lines + GetsDone(j, t))
  }

  /** `schedule`: the first runnable task behind the current one, or `cli; hlt`. When the search
      comes all the way round a larger ring to a runnable current task, nothing changes. */
  function Schedule(s: State): (r: State)
    requires s.current < |s.tasks|
    ensures r.current < |r.tasks| && |r.tasks| == |s.tasks|
  {
    match Chosen(s.tasks, s.current)
    case None => s.(halted := true)
    case Some(j) => if j == s.current && |s.tasks| > 1 then s else Dispatch(s, j)
  }

  // ----- system calls and interrupts -----

  /** How making a process ends: its control block's frame and the frames in use afterwards. */
  datatype Creation = Created(block: nat, used: set<nat>) | NotCreated(used: set<nat>)

  datatype Event =
    | Tick
    | Key(c: Char)
    | Putc
    | Gets(buffer: bool, size: nat)      // a null buffer or a size of 0 is refused
    | Exec(path: bool, made: Creation)   // a null path is refused
    | Exit(status: Word32)
    | CreateTask(made: Creation)
    | Spawn(made: Creation)              // create_user_process from the kernel
    | OtherCall

  function SetEax(s: State, v: Word32): (r: State)
    requires s.current < |s.tasks|
    ensures |r.tasks| == |s.tasks|
  {
    s.(tasks := s.tasks[s.current := s.tasks[s.current].(eax := v)])
  }

  function AddTask(s: State, made: Creation, parent: Option<nat>, awaited: bool): State {
    match made
    case NotCreated(used) => s.(used := used)
    case Created(block, used) =>
      s.(tasks := s.tasks + [Task(Ready, parent, 0, 0, 0, 0, Nothing, awaited, block)], used := used)
  }

  /** GETS up to its `schedule`. While another task reads, the caller is blocked without becoming
      the reader. */
  function Reading(s: State, size: nat): (r: State)
    requires s.current < |s.tasks|
    ensures |r.tasks| == |s.tasks| && r.current == s.current
  {
    var reader := if s.reader.NoReader? then Reader(s.current, size, []) else s.reader;
    var t := s.tasks[s.current].(state := WaitingForKeyboard, pending := InGets);
    s.(tasks := s.tasks[s.current := t], reader := reader)
  }

  /** A successful EXEC up to its `schedule`. */
  function Awaiting(s: State, made: Creation): (r: State)
    requires s.current < |s.tasks| && made.Created?
    ensures r.current == s.current && |r.tasks| == |s.tasks| + 1
  {
    var child := |s.tasks|;
    var u := AddTask(s, made, Some(s.current), true);
    var t := u.tasks[u.current].(state := WaitingForChild, waitingOn := child + 1, pending := InExec(child));
    u.(tasks := u.tasks[u.current := t])
  }

  function SysExec(s: State, made: Creation): (r: State)
    requires s.current < |s.tasks|
    ensures r.current < |r.tasks|
  {
    if made.NotCreated? then SetEax(s.(used := made.used), FAILURE) else Schedule(Awaiting(s, made))
  }

  /** Whether task `p` waits for task `c`. */
  predicate WaitsFor(tasks: seq<Task>, p: nat, c: nat) {
    p < |tasks| && tasks[p].state == WaitingForChild && tasks[p].waitingOn == c + 1
  }

  /** The parent of the current task, if that waits for it. */
  function Waiter(s: State): Option<nat>
    requires s.current < |s.tasks|
  {
    var parent := s.tasks[s.current].parent;
    if parent.Some? && parent.value != s.current && WaitsFor(s.tasks, parent.value, s.current) then parent else None
  }

  function Woken(t: Task, status: Word32): Task {
    t.(state := Ready, exitStatus := status, waitingOn := 0)
  }

  /** EXIT up to its `schedule`. */
  function Ended(s: State, status: Word32): (r: State)
    requires s.current < |s.tasks|
    ensures |r.tasks| == |s.tasks| && r.current == s.current
  {
    var c := s.current;
    var ended := s.tasks[c := s.tasks[c].(state := Terminated)];
    var tasks := match Waiter(s)
                 case None => ended
                 case Some(p) => if p < |ended| then ended[p := Woken(ended[p], status)] else ended;
    s.(tasks := tasks, exits := s.exits[c := status])
  }

  /** A key while a task reads: Enter wakes the reader with the length of the line. */
  function KeyPress(s: State, c: Char): (r: State)
    ensures |r.tasks| == |s.tasks| && r.current == s.current
  {
    match s.reader
    case NoReader => s
    case Reader(i, size, line) =>
      if c != NEWLINE then
        if size == 0 then s else s.(reader := Reader(i, size, Edit(line, size, c)))
      else if i < |s.tasks| && |line| < WORD then
        s.(tasks := s.tasks[i := s.tasks[i].(state := Ready, retval := |line|, pending := Typed(line))],
           reader := NoReader)
      else s
  }

  /** One step. A halted machine stays halted. */
  function Step(s: State, e: Event): (r: State)
    requires s.current < |s.tasks|
    ensures r.current < |r.tasks|
  {
    if s.halted then s
    else
      match e
      case Tick => Schedule(s)
      case Key(c) => KeyPress(s, c)
      case Putc => SetEax(s, 0)
      case Gets(buffer, size) => if !buffer || size == 0 then SetEax(s, FAILURE) else Schedule(Reading(s, size))
      case Exec(path, made) => if !path then SetEax(s, FAILURE) else SysExec(s, made)
      case Exit(status) => Schedule(Ended(s, status))
      case CreateTask(made) => AddTask(s, made, None, false)
      case Spawn(made) => AddTask(s, made, Some(s.current), false)
      case OtherCall => SetEax(s, FAILURE)
  }

  /** After `tasking_init`: the boot task alone, running. */
  function Booted(used: set<nat>, total: nat, block: nat): (s: State)
    ensures s.current < |s.tasks|
  {
    State([Task(Running, None, 0, 0, 0, 0, Nothing, false, block)], 0, NoReader, false, used, total, map[], [], [])
  }

  function Run(s: State, events: seq<Event>): (r: State)
    requires s.current < |s.tasks|
    ensures r.current < |r.tasks|
  {
    if events == [] then s else Step(Run(s, events[..|events| - 1]), events[|events| - 1])
  }

  // ----- the search finds the nearest runnable task -----

  /** No runnable task closer behind `current` than `d` steps. */
  ghost predicate NoneCloser(tasks: seq<Task>, current: nat, d: nat) {
    forall k: nat :: NotCloser(tasks, current, d, k)
  }

  ghost predicate NotCloser(tasks: seq<Task>, current: nat, d: nat, k: nat) {
    current < |tasks| && k < |tasks| && Distance(|tasks|, current, k) < d ==> !Runnable(tasks[k])
  }

  lemma {:induction false} FindIsNearest(tasks: seq<Task>, current: nat, i: nat)
    requires current < |tasks| && i < |tasks| && NoneCloser(tasks, current, Distance(|tasks|, current, i))
    ensures match Find(tasks, current, i)
            case Some(j) =>
              j < |tasks| && Runnable(tasks[j]) && NoneCloser(tasks, current, Distance(|tasks|, current, j))
            case None => forall k: nat :: k < |tasks| ==> !Runnable(tasks[k])
    decreases if i == current then 0 else Distance(|tasks|, i, current)
  {
    var n := |tasks|;
    if !Runnable(tasks[i]) {
      if i == current {
        forall k: nat | k < n
          ensures !Runnable(tasks[k])
        {
          assert NotCloser(tasks, current, n, k);
        }
      } else {
        var j := Next(n, i);
        var d := Distance(n, current, j);
        forall k: nat
          ensures NotCloser(tasks, current, d, k)
        {
          assert NotCloser(tasks, current, Distance(n, current, i), k);
        }
        FindIsNearest(tasks, current, j);
      }
    }
  }

  /** `schedule` picks the first runnable task behind the current one in the ring, and halts exactly
      when no task is runnable. */
  lemma ChosenIsNearest(tasks: seq<Task>, current: nat)
    requires current < |tasks|
    ensures match Chosen(tasks, current)
            case Some(j) =>
              j < |tasks| && Runnable(tasks[j]) && NoneCloser(tasks, current, Distance(|tasks|, current, j))
            case None => forall k: nat :: k < |tasks| ==> !Runnable(tasks[k])
  {
    FindIsNearest(tasks, current, Next(|tasks|, current));
  }
}
