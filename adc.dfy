/**
 * The ADC layer: the three HAL callbacks and the agent method each calls,
 * for the `AdcQueue` registry of `scems-mcu-stm32` and the `ADCS` device
 * tables of the two `scems` wrappers, and the blocking conversion, whose
 * HAL steps are oracles.
 *
 * Each callback shim is `DeviceRegistry.Registry.Notify` (or
 * `LegacyDevices.DeviceTable.Notify`) with the event `EventOf` gives.
 */
module Adc {
  import opened Common

  /** The timeout, in milliseconds, a blocking conversion polls with. */
  const ADC_DEF_TIMEOUT: nat := 1000

  /** `ConvCplt` carries what `HAL_ADC_GetValue` reads when the callback runs. */
  datatype Callback =
    | ConvCplt(value: nat)
    | LevelOutOfWindow
    | ErrorCallback

  /** The agent method each callback calls. */
  function EventOf(cb: Callback): (e: Event)
    ensures e.AdcConvertOnceComplete? <==> cb.ConvCplt?
  {
    match cb
    case ConvCplt(v) => AdcConvertOnceComplete(v)
    case LevelOutOfWindow => AdcLevelOutOfWindow
    case ErrorCallback => AdcError
  }

  /** The callback behind an agent method, if it is an ADC one. */
  function CallbackOf(e: Event): Option<Callback>
  {
    match e
    case AdcConvertOnceComplete(v) => Some(ConvCplt(v))
    case AdcLevelOutOfWindow => Some(LevelOutOfWindow)
    case AdcError => Some(ErrorCallback)
    case _ => None
  }

  /** Each callback calls its own method, and the converted value reaches the agent unchanged. */
  lemma EventOfInjective(cb: Callback)
    ensures CallbackOf(EventOf(cb)) == Some(cb)
  {
  }

  /** The HAL calls a blocking conversion makes. */
  datatype HalStep = Start | PollForConversion(timeout: nat) | GetValue

  /** The HAL calls made and the value returned. */
  datatype Conversion = Conversion(steps: seq<HalStep>, result: Result<nat>)

  /** The full sequence of HAL calls of a successful conversion. */
  const CONVERT_STEPS: seq<HalStep> := [Start, PollForConversion(ADC_DEF_TIMEOUT), GetValue]

  /**
   * `convert` / `convert_once`: start, poll with `ADC_DEF_TIMEOUT`, read.
   * The first failing step's error is returned and no later step runs;
   * `start`, `poll` and `value` are what the HAL reports.
   */
  function Convert(start: Result<()>, poll: Result<()>, value: nat): (c: Conversion)
    ensures c.steps <= CONVERT_STEPS && |c.steps| >= 1
    ensures c.result.Ok? <==> start.Ok? && poll.Ok?
    ensures c.result.Ok? ==> c.result.value == value && c.steps == CONVERT_STEPS
    ensures start.Err? ==> c.result == Err(start.error) && c.steps == [Start]
    ensures start.Ok? && poll.Err? ==> c.result == Err(poll.error) && |c.steps| == 2
  {
    match start
    case Err(e) => Conversion([Start], Err(e))
    case Ok(_) =>
      match poll
      case Err(e) => Conversion([Start, PollForConversion(ADC_DEF_TIMEOUT)], Err(e))
      case Ok(_) => Conversion(CONVERT_STEPS, Ok(value))
  }

  /** The value is read only after both the start and the poll succeeded, and the poll always uses the default timeout. */
  lemma ConvertReadsOnlyAfterSuccess(start: Result<()>, poll: Result<()>, value: nat)
    ensures GetValue in Convert(start, poll, value).steps <==> start.Ok? && poll.Ok?
    ensures forall t :: PollForConversion(t) in Convert(start, poll, value).steps ==> t == ADC_DEF_TIMEOUT
  {
  }
}
