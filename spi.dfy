/**
 * The SPI layer: the five HAL completion callbacks and the agent method
 * each calls, for the `SpiQueue` registry of `scems-mcu-stm32` and the
 * `SPIS` device tables of the two `scems` wrappers, and the transfer size
 * the full-duplex transfers pass to the HAL.
 *
 * Each callback shim is `DeviceRegistry.Registry.Notify` (or
 * `LegacyDevices.DeviceTable.Notify`) with the event `EventOf` gives.
 */
module Spi {
  import opened Common

  datatype Callback =
    | TxCplt
    | RxCplt
    | TxRxCplt
    | ErrorCallback
    | AbortCplt

  /** The agent method each callback calls. */
  function EventOf(cb: Callback): (e: Event)
    ensures e in {SpiTxComplete, SpiRxComplete, SpiTxRxComplete, SpiError, SpiAbortComplete}
  {
    match cb
    case TxCplt => SpiTxComplete
    case RxCplt => SpiRxComplete
    case TxRxCplt => SpiTxRxComplete
    case ErrorCallback => SpiError
    case AbortCplt => SpiAbortComplete
  }

  /** The callback behind an agent method, if it is an SPI one. */
  function CallbackOf(e: Event): Option<Callback>
  {
    match e
    case SpiTxComplete => Some(TxCplt)
    case SpiRxComplete => Some(RxCplt)
    case SpiTxRxComplete => Some(TxRxCplt)
    case SpiError => Some(ErrorCallback)
    case SpiAbortComplete => Some(AbortCplt)
    case _ => None
  }

  /** Each callback calls its own method and no other. */
  lemma EventOfInjective(cb: Callback)
    ensures CallbackOf(EventOf(cb)) == Some(cb)
  {
  }

  /**
   * The size `transmit_receive` and `async_transmit_receive` pass to the
   * HAL: the transmit buffer's length cast to `u16`. The receive buffer's
   * length is not consulted.
   */
  function TransferSize(txLen: nat): (n: nat)
    ensures IsU16(n)
    ensures (txLen - n) % U16_LIMIT == 0
  {
    txLen % U16_LIMIT
  }

  /** A transmit buffer that fits a `u16` is transferred whole; 65536 bytes wrap to a zero-length transfer. */
  lemma TransferSizeFits(txLen: nat)
    ensures IsU16(txLen) ==> TransferSize(txLen) == txLen
    ensures TransferSize(U16_LIMIT) == 0
  {
  }
}
