/**
 * The OS-independent enums that the RTOS backends convert to and from:
 * the kernel, task and timer states, task priorities and timer modes.
 */
module OsTypes {
  /** `OSState`. */
  datatype OSState = Running | Initializing | Blocked | Suspended | Locked | Terminated | ErrInitMem | UnknownErr

  /** `TaskState`. */
  datatype TaskState = Inactive | Ready | Running | Blocked | Terminated | Error | Unknown

  /** `TimerState`. */
  datatype TimerState = Idle | Active | Expired | Deleted | Error | Unknown

  /** `TaskPriority`, from lowest to highest. */
  datatype TaskPriority = None | Idle | Base | Low | Normal | High | Privilege | RealTime

  /** `TimerMode`. */
  datatype TimerMode = Once | Periodic

  /** The declaration position of a priority, lowest first. */
  function PriorityRank(p: TaskPriority): (n: nat)
    ensures n < 8
    ensures p == TaskPriority.None <==> n == 0
    ensures p == RealTime <==> n == 7
  {
    match p
    case None => 0
    case Idle => 1
    case Base => 2
    case Low => 3
    case Normal => 4
    case High => 5
    case Privilege => 6
    case RealTime => 7
  }
}
