/** The steps of the transition system put together from the pieces the kernel's methods do: each piece
    looks at the tasks only, whoever is reading from the keyboard. */
module Steps {
  import opened Options
  import opened Words
  import P = Protocol

  /** `schedule` looks at the tasks only. */
  lemma ScheduleLocal(s: P.State, reader: P.Reader)
    requires s.current < |s.tasks|
    ensures P.Schedule(s.(reader := reader)) == P.Schedule(s).(reader := reader)
  {
  }

  lemma ExitLocal(s: P.State, reader: P.Reader, status: Word32)
    requires s.current < |s.tasks| && !s.halted
    ensures P.Step(s.(reader := reader), P.Exit(status)) == P.Schedule(P.Ended(s, status)).(reader := reader)
  {
    ScheduleLocal(P.Ended(s, status), reader);
  }

  lemma PutcLocal(s: P.State, reader: P.Reader)
    requires s.current < |s.tasks| && !s.halted
    ensures P.Step(s.(reader := reader), P.Putc) == P.SetEax(s, 0).(reader := reader)
  {
  }

  lemma RefusedLocal(s: P.State, reader: P.Reader, e: P.Event)
    requires s.current < |s.tasks| && !s.halted
    requires (e.Gets? && (!e.buffer || e.size == 0)) || (e.Exec? && !e.path)
    ensures P.Step(s.(reader := reader), e) == P.SetEax(s, P.FAILURE).(reader := reader)
  {
  }

  /** The current task is blocked, whether or not it became the reader. */
  function BlockedInGets(s: P.State): (r: P.State)
    requires s.current < |s.tasks|
    ensures r.current < |r.tasks|
  {
    var t := s.tasks[s.current].(state := P.WaitingForKeyboard, pending := P.InGets);
    s.(tasks := s.tasks[s.current := t])
  }

  lemma GetsLocal(s: P.State, reader: P.Reader, size: nat, reader': P.Reader)
    requires s.current < |s.tasks| && !s.halted && size > 0
    requires reader' == if reader.NoReader? then P.Reader(s.current, size, []) else reader
    ensures P.Step(s.(reader := reader), P.Gets(true, size)) == P.Schedule(BlockedInGets(s)).(reader := reader')
  {
    ScheduleLocal(BlockedInGets(s), reader');
  }

  lemma CreateLocal(s: P.State, e: P.Event)
    requires s.current < |s.tasks| && !s.halted && (e.CreateTask? || e.Spawn?)
    ensures P.Step(s, e) == P.AddTask(s, e.made, if e.Spawn? then Some(s.current) else None, false)
  {
  }

  lemma FailedLocal(s: P.State, made: P.Creation, u: P.State)
    requires s.current < |s.tasks| && !s.halted && made.NotCreated?
    requires u == P.AddTask(s, made, Some(s.current), true)
    ensures u.current < |u.tasks|
    ensures P.Step(s, P.Exec(true, made)) == P.SetEax(u.(reader := P.NoReader), P.FAILURE).(reader := u.reader)
  {
  }

  lemma ExecLocal(s: P.State, made: P.Creation, u: P.State, blocked: P.State)
    requires s.current < |s.tasks| && !s.halted && made.Created?
    requires u == P.AddTask(s, made, Some(s.current), true) && u.current < |u.tasks|
    requires var pid := |u.tasks|;
             var t := u.tasks[u.current].(state := P.WaitingForChild, waitingOn := pid, pending := P.InExec(pid - 1));
             blocked == u.(reader := P.NoReader, tasks := u.tasks[u.current := t])
    ensures P.Step(s, P.Exec(true, made)) == P.Schedule(blocked).(reader := u.reader)
  {
    ScheduleLocal(blocked, u.reader);
    assert blocked.(reader := u.reader) == P.Awaiting(s, made);
  }

  lemma EndedIs(s: P.State, status: Word32, ended: seq<P.Task>, parent: Option<nat>, woken: bool, tasks: seq<P.Task>)
    requires s.current < |s.tasks| && parent == s.tasks[s.current].parent
    requires ended == s.tasks[s.current := s.tasks[s.current].(state := P.Terminated)]
    requires woken <==> parent.Some? && P.WaitsFor(ended, parent.value, s.current)
    requires tasks == if woken then ended[parent.value := P.Woken(ended[parent.value], status)] else ended
    ensures P.Ended(s, status) == s.(tasks := tasks, exits := s.exits[s.current := status])
  {
  }

  lemma BootedHasNoReader(used: set<nat>, total: nat, block: nat)
    ensures P.Booted(used, total, block).reader == P.NoReader && !P.Booted(used, total, block).halted
  {
  }

  lemma TickLocal(s: P.State, reader: P.Reader)
    requires s.current < |s.tasks| && !s.halted
    ensures P.Step(s.(reader := reader), P.Tick) == P.Schedule(s).(reader := reader)
  {
    ScheduleLocal(s, reader);
  }
}
