/**
 * The STM32 HAL status conversions. Each crate turns `HAL_StatusTypeDef`
 * (`HAL_Status` in `scems`) into a `RetValue<()>` and, by a second,
 * separately written `match`, into an `ErrValue`. The `sces` crates map
 * busy and timeout to `Busy` and `Timeout`, the `scems` crates to `BusBusy`
 * and `Overtime`.
 */
module HalStatus {
  import opened Common

  datatype HalStatus = HalOk | HalError | HalBusy | HalTimeout

  /** The C value of a status. */
  function Code(s: HalStatus): (c: nat)
    ensures c < 4 && (c == 0 <==> s == HalOk)
  {
    match s
    case HalOk => 0
    case HalError => 1
    case HalBusy => 2
    case HalTimeout => 3
  }

  /** Which error a crate reports for busy and for timeout. */
  datatype Flavour = Flavour(busy: ErrValue, timeout: ErrValue)

  const SCES_HAL := Flavour(Busy, Timeout)
  const SCEMS_HAL := Flavour(BusBusy, Overtime)

  /** The `RetValue<()>` conversion (`ok()` is this conversion). */
  function ToRetValue(f: Flavour, s: HalStatus): (r: Result<()>)
    ensures r.Ok? <==> s == HalOk
    ensures s == HalError ==> r == Err(Param)
    ensures s == HalBusy ==> r == Err(f.busy)
    ensures s == HalTimeout ==> r == Err(f.timeout)
  {
    match s
    case HalOk => Ok(())
    case HalError => Err(Param)
    case HalBusy => Err(f.busy)
    case HalTimeout => Err(f.timeout)
  }

  /** The `ErrValue` conversion: `HAL_OK` becomes `ErrValue::None`. */
  function ToErrValue(f: Flavour, s: HalStatus): (e: ErrValue)
    ensures s == HalOk ==> e == NoError
    ensures s == HalError ==> e == Param
    ensures s == HalBusy ==> e == f.busy
    ensures s == HalTimeout ==> e == f.timeout
  {
    match s
    case HalOk => NoError
    case HalError => Param
    case HalBusy => f.busy
    case HalTimeout => f.timeout
  }

  /** In both crates the two conversions agree: a failed status is `Err` of its `ErrValue`, and only `HAL_OK` is `None`. */
  lemma ConversionsAgree(f: Flavour, s: HalStatus)
    requires f == SCES_HAL || f == SCEMS_HAL
    ensures s != HalOk ==> ToRetValue(f, s) == Err(ToErrValue(f, s))
    ensures s == HalOk <==> ToErrValue(f, s) == NoError
  {
  }

  /** In both crates the three failures stay distinguishable. */
  lemma FailuresDistinct(f: Flavour, s: HalStatus, t: HalStatus)
    requires f == SCES_HAL || f == SCEMS_HAL
    requires ToErrValue(f, s) == ToErrValue(f, t)
    ensures s == t
  {
  }
}
