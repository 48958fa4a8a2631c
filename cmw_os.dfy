/**
 * The OS enums of the SCES C middleware (`sces-cmw` `os/native.rs`) and
 * their conversions to the crate's own `OSState`, `TaskState`,
 * `TimerState` and `TaskPriority`, plus its wait and event constants.
 */
module CmwOs {
  import opened Common
  import OT = OsTypes

  const SCES_OS_WAIT_NO: nat := 0
  const SCES_OS_WAIT_FOREVER: nat := U32_MAX
  const SCES_EVENT_NONE: nat := 0
  const SCES_EVENT_ALL: nat := 0xFFFF_FFFF

  datatype ScesOsState = Running | Initializing | Blocked | Suspended | Locked | Terminated | ErrInitMem | UnknownErr
  datatype ScesTaskState = Inactive | Ready | Running | Blocked | Terminated | Error | Unknown
  datatype ScesTimerState = Idle | Active | Expired | Deleted | Error | Unknown
  datatype ScesTaskPriority = None | Idle | Base | Low | Normal | High | Privilege | Realtime

  /** `ScesTaskPriority::MAX`. */
  const SCES_PRIORITY_MAX: ScesTaskPriority := Realtime

  /** `From<ScesOsState> for OSState`, variant for variant. */
  function ToOsState(s: ScesOsState): (o: OT.OSState)
    ensures s.Running? <==> o.Running?
    ensures s.UnknownErr? <==> o.UnknownErr?
  {
    match s
    case Running => OT.OSState.Running
    case Initializing => OT.Initializing
    case Blocked => OT.OSState.Blocked
    case Suspended => OT.Suspended
    case Locked => OT.Locked
    case Terminated => OT.OSState.Terminated
    case ErrInitMem => OT.ErrInitMem
    case UnknownErr => OT.UnknownErr
  }

  /** `From<ScesTaskState> for TaskState`, variant for variant. */
  function ToTaskState(s: ScesTaskState): (t: OT.TaskState)
    ensures s.Running? <==> t.Running?
    ensures s.Unknown? <==> t.Unknown?
  {
    match s
    case Inactive => OT.Inactive
    case Ready => OT.Ready
    case Running => OT.TaskState.Running
    case Blocked => OT.TaskState.Blocked
    case Terminated => OT.TaskState.Terminated
    case Error => OT.TaskState.Error
    case Unknown => OT.TaskState.Unknown
  }

  /** `From<ScesTimerState> for TimerState`, variant for variant. */
  function ToTimerState(s: ScesTimerState): (t: OT.TimerState)
    ensures s.Active? <==> t.Active?
    ensures s.Unknown? <==> t.Unknown?
  {
    match s
    case Idle => OT.TimerState.Idle
    case Active => OT.Active
    case Expired => OT.Expired
    case Deleted => OT.Deleted
    case Error => OT.TimerState.Error
    case Unknown => OT.TimerState.Unknown
  }

  /** `From<ScesOsState>` is one-to-one and reaches every OS state. */
  lemma OsStateBijective(a: ScesOsState, b: ScesOsState, o: OT.OSState)
    ensures ToOsState(a) == ToOsState(b) ==> a == b
    ensures exists x :: ToOsState(x) == o
  {
    match o {
      case Running => assert ToOsState(ScesOsState.Running) == o;
      case Initializing => assert ToOsState(ScesOsState.Initializing) == o;
      case Blocked => assert ToOsState(ScesOsState.Blocked) == o;
      case Suspended => assert ToOsState(ScesOsState.Suspended) == o;
      case Locked => assert ToOsState(ScesOsState.Locked) == o;
      case Terminated => assert ToOsState(ScesOsState.Terminated) == o;
      case ErrInitMem => assert ToOsState(ScesOsState.ErrInitMem) == o;
      case UnknownErr => assert ToOsState(ScesOsState.UnknownErr) == o;
    }
  }

  /** `From<ScesTaskState>` is one-to-one and reaches every task state. */
  lemma TaskStateBijective(c: ScesTaskState, d: ScesTaskState, t: OT.TaskState)
    ensures ToTaskState(c) == ToTaskState(d) ==> c == d
    ensures exists x :: ToTaskState(x) == t
  {
    match t {
      case Inactive => assert ToTaskState(ScesTaskState.Inactive) == t;
      case Ready => assert ToTaskState(ScesTaskState.Ready) == t;
      case Running => assert ToTaskState(ScesTaskState.Running) == t;
      case Blocked => assert ToTaskState(ScesTaskState.Blocked) == t;
      case Terminated => assert ToTaskState(ScesTaskState.Terminated) == t;
      case Error => assert ToTaskState(ScesTaskState.Error) == t;
      case Unknown => assert ToTaskState(ScesTaskState.Unknown) == t;
    }
  }

  /** `From<ScesTimerState>` is one-to-one and reaches every timer state. */
  lemma TimerStateBijective(e: ScesTimerState, f: ScesTimerState, m: OT.TimerState)
    ensures ToTimerState(e) == ToTimerState(f) ==> e == f
    ensures exists x :: ToTimerState(x) == m
  {
    match m {
      case Idle => assert ToTimerState(ScesTimerState.Idle) == m;
      case Active => assert ToTimerState(ScesTimerState.Active) == m;
      case Expired => assert ToTimerState(ScesTimerState.Expired) == m;
      case Deleted => assert ToTimerState(ScesTimerState.Deleted) == m;
      case Error => assert ToTimerState(ScesTimerState.Error) == m;
      case Unknown => assert ToTimerState(ScesTimerState.Unknown) == m;
    }
  }

  /** The `#[repr(u32)]` value of a C priority. */
  function PriorityCode(p: ScesTaskPriority): (c: nat)
    ensures c <= 7
    ensures c == 7 <==> p == SCES_PRIORITY_MAX
  {
    match p
    case None => 0
    case Idle => 1
    case Base => 2
    case Low => 3
    case Normal => 4
    case High => 5
    case Privilege => 6
    case Realtime => 7
  }

  /** `From<TaskPriority> for ScesTaskPriority`: the code is the priority's rank. */
  function FromTaskPriority(p: OT.TaskPriority): (q: ScesTaskPriority)
    ensures PriorityCode(q) == OT.PriorityRank(p)
  {
    match p
    case None => ScesTaskPriority.None
    case Idle => ScesTaskPriority.Idle
    case Base => ScesTaskPriority.Base
    case Low => ScesTaskPriority.Low
    case Normal => ScesTaskPriority.Normal
    case High => ScesTaskPriority.High
    case Privilege => ScesTaskPriority.Privilege
    case RealTime => Realtime
  }

  /** `From<ScesTaskPriority> for TaskPriority`. */
  function ToTaskPriority(q: ScesTaskPriority): (p: OT.TaskPriority)
    ensures OT.PriorityRank(p) == PriorityCode(q)
  {
    match q
    case None => OT.TaskPriority.None
    case Idle => OT.TaskPriority.Idle
    case Base => OT.TaskPriority.Base
    case Low => OT.TaskPriority.Low
    case Normal => OT.TaskPriority.Normal
    case High => OT.TaskPriority.High
    case Privilege => OT.TaskPriority.Privilege
    case Realtime => OT.RealTime
  }

  /** The priority conversions are inverse to each other, and the C order (by code) is the priority order. */
  lemma PriorityRoundTrips(p: OT.TaskPriority, q: ScesTaskPriority, p': OT.TaskPriority)
    ensures ToTaskPriority(FromTaskPriority(p)) == p
    ensures FromTaskPriority(ToTaskPriority(q)) == q
    ensures OT.PriorityRank(p) < OT.PriorityRank(p') <==> PriorityCode(FromTaskPriority(p)) < PriorityCode(FromTaskPriority(p'))
    ensures PriorityCode(q) <= PriorityCode(SCES_PRIORITY_MAX)
  {
  }
}
