/** The task control block. */
module Tasks {
  import opened Options
  import opened Words
  import P = Protocol

  /** Where a task goes on when it is chosen: in user code, or behind the `schedule` of a system call. */
  datatype Resume = InUser | BehindGets | BehindExec

  type Pid = n: int | n > 0 witness 1

  class ControlBlock {
    const id: Pid
    ghost const awaited: bool
    const block: nat
    var state: P.TaskState
    var next: ControlBlock?
    var parent: ControlBlock?
    var childPidWaitingOn: nat
    var childExitStatus: Word32
    var syscallRetval: Word32
    var eax: Word32                       // the saved user EAX
    var resume: Resume
    /** The same with what the system call is about. */
    ghost var pending: P.Pending

    constructor (id: Pid, state: P.TaskState, parent: ControlBlock?, ghost awaited: bool, block: nat)
      ensures this.id == id && this.awaited == awaited && this.block == block
      ensures this.state == state && next == null && this.parent == parent && childPidWaitingOn == 0
      ensures childExitStatus == 0 && syscallRetval == 0 && eax == 0 && resume == InUser && pending == P.Nothing
    {
      this.id, this.block := id, block;
      this.awaited := awaited;
      this.state, next, this.parent, childPidWaitingOn := state, null, parent, 0;
      childExitStatus, syscallRetval, eax, resume, pending := 0, 0, 0, InUser, P.Nothing;
    }

    ghost function Abs(): P.Task
      reads this
    {
      P.Task(state, if parent == null then None else Some(parent.id - 1), childPidWaitingOn,
             childExitStatus, syscallRetval, eax, pending, awaited, block)
    }

    ghost predicate Consistent()
      reads this
    {
      match pending
      case Nothing => resume == InUser
      case InGets => resume == BehindGets
      case Typed(_) => resume == BehindGets
      case InExec(_) => resume == BehindExec
    }

    predicate Blocked()
      reads this
    {
      state == P.Terminated || state == P.WaitingForKeyboard || state == P.WaitingForChild
    }
  }
}
