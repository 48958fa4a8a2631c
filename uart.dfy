/**
 * The UART layer: the five HAL completion callbacks and the agent method
 * each one calls, for the `UartQueue` registry of `scems-mcu-stm32` and the
 * `UARTS` device table of the `scems` wrapper, and `receive`, whose HAL
 * call is an oracle reporting a status and a received count.
 *
 * Each callback shim is `DeviceRegistry.Registry.Notify` (or
 * `LegacyDevices.DeviceTable.Notify`) with the event `EventOf` gives.
 */
module Uart {
  import opened Common

  /** The HAL callbacks a UART raises; `RxEvent` carries the `u16` size the HAL reports. */
  datatype Callback =
    | TxCplt
    | RxCplt
    | ErrorCallback
    | AbortCplt
    | RxEvent(size: nat)

  /** The agent method each callback calls. */
  function EventOf(cb: Callback): (e: Event)
    ensures e.UartRxComplete? <==> cb.RxEvent?
  {
    match cb
    case TxCplt => UartTxComplete
    case RxCplt => UartRxSizeComplete
    case ErrorCallback => UartError
    case AbortCplt => UartAbortComplete
    case RxEvent(size) => UartRxComplete(size)
  }

  /** The callback behind an agent method, if it is a UART one. */
  function CallbackOf(e: Event): Option<Callback>
  {
    match e
    case UartTxComplete => Some(TxCplt)
    case UartRxSizeComplete => Some(RxCplt)
    case UartError => Some(ErrorCallback)
    case UartAbortComplete => Some(AbortCplt)
    case UartRxComplete(size) => Some(RxEvent(size))
    case _ => None
  }

  /**
   * Each callback calls its own method, and the idle-line size reaches the
   * agent unchanged, widened from `u16` to `u32`.
   */
  lemma EventOfInjective(cb: Callback)
    ensures CallbackOf(EventOf(cb)) == Some(cb)
    ensures cb.RxEvent? && IsU16(cb.size) ==> EventOf(cb).size == cb.size && IsU32(EventOf(cb).size)
  {
  }

  /**
   * `receive`: the receive-to-idle HAL call's failure is returned as is;
   * on success the `u16` count the HAL wrote is returned as a `u32`.
   */
  function Receive(hal: Result<()>, size: nat): (r: Result<nat>)
    requires IsU16(size)
    ensures r.Ok? <==> hal.Ok?
    ensures r.Ok? ==> r.value == size && IsU32(r.value)
    ensures r.Err? ==> r.error == hal.error
  {
    match hal
    case Err(e) => Err(e)
    case Ok(_) => Ok(size)
  }
}
