/**
 * The CMSIS-RTOS2 conversions of `scems-os-cmsis`: `osStatus_t` into
 * `RetValue<()>` and `ErrValue`, `TaskPriority` into `osPriority_t`,
 * `TimerMode` into `osTimerType_t`, the `osFlagsError*` codes, and the
 * thread attributes `osThreadAttr_t::new` builds.
 */
module CmsisNative {
  import opened Common
  import OT = OsTypes

  const OS_WAIT_FOREVER: nat := 0xFFFF_FFFF

  /** The error indicator bit of the flags functions' results. */
  const OS_FLAGS_ERROR: nat := 0x8000_0000

  datatype OsStatus =
    | OsOK
    | OsError
    | OsErrorTimeout
    | OsErrorResource
    | OsErrorParameter
    | OsErrorNoMemory
    | OsErrorISR
    | OsStatusReserved

  /** The C value of a status. */
  function StatusCode(s: OsStatus): (c: int)
    ensures s == OsOK <==> c == 0
    ensures s != OsOK && s != OsStatusReserved ==> -6 <= c <= -1
  {
    match s
    case OsOK => 0
    case OsError => -1
    case OsErrorTimeout => -2
    case OsErrorResource => -3
    case OsErrorParameter => -4
    case OsErrorNoMemory => -5
    case OsErrorISR => -6
    case OsStatusReserved => 0x7FFF_FFFF
  }

  /** `Into<ErrValue>`: the error table of the backend. */
  function ToErrValue(s: OsStatus): (e: ErrValue)
    ensures e == NoError <==> s == OsOK
    ensures s == OsError || s == OsErrorParameter ==> e == Param
    ensures s == OsErrorTimeout ==> e == Busy
    ensures s == OsErrorResource ==> e == Overtime
    ensures s == OsErrorNoMemory ==> e == MemAllocFailure
    ensures s == OsErrorISR ==> e == Permission
    ensures s == OsStatusReserved ==> e == Unknown
  {
    match s
    case OsOK => NoError
    case OsError => Param
    case OsErrorTimeout => Busy
    case OsErrorResource => Overtime
    case OsErrorParameter => Param
    case OsErrorNoMemory => MemAllocFailure
    case OsErrorISR => Permission
    case OsStatusReserved => Unknown
  }

  /** `Into<RetValue<()>>` (and `ok()`): `osOK` is `Ok`, every other status `Err` of its `ErrValue`. */
  function ToRetValue(s: OsStatus): (r: Result<()>)
    ensures r.Ok? <==> s == OsOK
    ensures r.Err? ==> r.error == ToErrValue(s) && r.error != NoError
  {
    if s == OsOK then Ok(()) else Err(ToErrValue(s))
  }

  /** `osError` and `osErrorParameter` both become `Param`; every other failure stays distinguishable. */
  lemma ErrorTableMerges(s: OsStatus, t: OsStatus)
    requires s != t && ToErrValue(s) == ToErrValue(t)
    ensures {s, t} == {OsError, OsErrorParameter}
  {
  }

  /** The flags functions' error result for a failed status: the status as a `u32`. */
  function FlagsErrorOf(s: OsStatus): (c: nat)
    requires s in {OsError, OsErrorTimeout, OsErrorResource, OsErrorParameter, OsErrorISR}
    ensures c == U32_LIMIT + StatusCode(s)
  {
    match s
    case OsError => 0xFFFF_FFFF          // osFlagsErrorUnknown
    case OsErrorTimeout => 0xFFFF_FFFE   // osFlagsErrorTimeout
    case OsErrorResource => 0xFFFF_FFFD  // osFlagsErrorResource
    case OsErrorParameter => 0xFFFF_FFFC // osFlagsErrorParameter
    case OsErrorISR => 0xFFFF_FFFA       // osFlagsErrorISR
  }

  /** Every `osFlagsError*` code is a `u32` with the `osFlagsError` bit set. */
  lemma FlagsErrorsHaveErrorBit(s: OsStatus)
    requires s in {OsError, OsErrorTimeout, OsErrorResource, OsErrorParameter, OsErrorISR}
    ensures IsU32(FlagsErrorOf(s)) && FlagsErrorOf(s) >= OS_FLAGS_ERROR
    ensures (FlagsErrorOf(s) / OS_FLAGS_ERROR) % 2 == 1
  {
  }

  /** `From<TaskPriority> for osPriority_t`: the base level of each CMSIS band. */
  function OsPriority(p: OT.TaskPriority): (c: nat)
    ensures c <= 48
    ensures p == OT.TaskPriority.None <==> c == 0
  {
    match p
    case None => 0       // osPriorityNone
    case Idle => 1       // osPriorityIdle
    case Base => 8       // osPriorityLow
    case Low => 16       // osPriorityBelowNormal
    case Normal => 24    // osPriorityNormal
    case High => 32      // osPriorityAboveNormal
    case Privilege => 40 // osPriorityHigh
    case RealTime => 48  // osPriorityRealtime
  }

  /** The mapping keeps the priority order strictly. */
  lemma OsPriorityStrictlyIncreasing(p: OT.TaskPriority, q: OT.TaskPriority)
    ensures OT.PriorityRank(p) < OT.PriorityRank(q) <==> OsPriority(p) < OsPriority(q)
  {
  }

  /** `From<TimerMode> for osTimerType_t`. */
  function TimerType(m: OT.TimerMode): (c: nat)
    ensures c == 0 <==> m == OT.Once
    ensures c == 1 <==> m == OT.Periodic
  {
    match m
    case Once => 0
    case Periodic => 1
  }

  const OS_THREAD_DETACHED: nat := 0

  /** `osThreadAttr_t`. */
  datatype ThreadAttr = ThreadAttr(
    name: string, attrBits: nat, cbMem: Ptr, cbSize: nat, stackMem: Ptr,
    stackSize: nat, priority: nat, tzModule: nat, reserved: nat)

  /** `osThreadAttr_t::new`: detached, control block and stack left to the kernel, the given stack size and the mapped priority. */
  function NewThreadAttr(name: string, stackSize: nat, p: OT.TaskPriority): (a: ThreadAttr)
    ensures a.name == name && a.attrBits == OS_THREAD_DETACHED
    ensures a.cbMem == NULL && a.cbSize == 0 && a.stackMem == NULL
    ensures a.stackSize == stackSize && a.priority == OsPriority(p)
    ensures a.tzModule == 0 && a.reserved == 0
  {
    ThreadAttr(name, OS_THREAD_DETACHED, NULL, 0, NULL, stackSize, OsPriority(p), 0, 0)
  }
}
